/** One polling cycle of the collection pipeline: claim, divert or batch, hand off, settle, save
    the cursor; on failure put the old cursor back; on every exit release what was not settled. */
module Cycle {

  type Id = string

  datatype Cursor = Empty | At(position: string)

  /** What happens to an event between its claim and the batch: it is diverted on purpose
      (quarantined, dropped by policy, suppressed), it joins the batch, or processing raises. */
  datatype Fate = Diverted | Batched | Raised

  /** The hand-off of a batch returns, with `lost` in no queue and no dead-letter row (shed under
      backpressure, or unrouted while the dead-letter write fails), or raises after it passed on some. */
  datatype Enqueue = Returns(lost: set<Id>) | Raises(passedOn: set<Id>)

  datatype Arrival = Arrival(id: Id, fate: Fate, timeUp: bool, enqueue: Enqueue)

  /** A cycle returns at once (integration inactive, of the wrong kind, or without a collector), fails
      before it reads the cursor, or reads it. */
  datatype Entry = Skips | FailsEarly | Loads

  /** Everything the cycle does not decide itself. `ends` is false if the collector raises; `saves` is
      false if saving raises. */
  datatype Script = Script(entry: Entry, arrivals: seq<Arrival>, ends: bool, last: Enqueue, saves: bool, next: Cursor)

  /** What outlives a cycle: the dedupe claims, the cursor, and the logs of all ids handed off and of
      all ids a returning hand-off lost. */
  datatype Store = Store(claims: set<Id>, cursor: Cursor, handed: seq<Id>, lost: seq<Id>)

  /** A cycle under way. The last five fields are its ledger. */
  datatype Run = Run(store: Store, unsettled: set<Id>, batch: seq<Id>, count: nat, broken: bool,
                     yielded: seq<Id>, deduped: seq<Id>, diverted: seq<Id>, passed: seq<Id>, dropped: seq<Id>)

  datatype Outcome = Outcome(store: Store, ok: bool, run: Run)

  function SetOf(ids: seq<Id>): set<Id> {
    set x | x in ids
  }

  /** The ids of a batch inside a set, or outside it. */
  function Picked(batch: seq<Id>, some: set<Id>, inside: bool): (r: seq<Id>)
    ensures forall x :: x in r <==> x in batch && (x in some <==> inside)
  {
    if batch == [] then []
    else
      var init, x := batch[..|batch| - 1], batch[|batch| - 1];
      assert batch == init + [x];
      if x in some <==> inside then Picked(init, some, inside) + [x] else Picked(init, some, inside)
  }

  function Start(store: Store): Run {
    Run(store, {}, [], 0, false, [], [], [], [], [])
  }

  function Flush(r: Run, e: Enqueue): Run {
    match e
    case Returns(lost) =>
      var kept, dropped := Picked(r.batch, lost, false), Picked(r.batch, lost, true);
      r.(store := r.store.(handed := r.store.handed + kept, lost := r.store.lost + dropped),
         unsettled := r.unsettled - SetOf(r.batch), batch := [],
         passed := r.passed + kept, dropped := r.dropped + dropped)
    case Raises(some) =>
      r.(store := r.store.(handed := r.store.handed + Picked(r.batch, some, true)), broken := true)
  }

  /** Claim an event, and drop it as a duplicate, fail on it, divert it or batch it. */
  function Taken(r: Run, y: Arrival): Run {
    var seen := r.(yielded := r.yielded + [y.id]);
    if r.broken then r
    else if y.id in r.store.claims then seen.(deduped := r.deduped + [y.id])
    else
      var claimed := seen.(store := r.store.(claims := r.store.claims + {y.id}), unsettled := r.unsettled + {y.id});
      match y.fate
      case Raised => claimed.(broken := true)
      case Diverted => claimed.(diverted := r.diverted + [y.id])
      case Batched => claimed.(batch := r.batch + [y.id], count := r.count + 1)
  }

  /** The event joins the batch and makes it due. */
  predicate Triggers(r: Run, y: Arrival, batchSize: int) {
    !r.broken && y.id !in r.store.claims && y.fate.Batched? && (|r.batch| + 1 >= batchSize || y.timeUp)
  }

  function OnArrival(r: Run, y: Arrival, batchSize: int): Run {
    if Triggers(r, y, batchSize) then Flush(Taken(r, y), y.enqueue) else Taken(r, y)
  }

  function Collected(r: Run, arrivals: seq<Arrival>, batchSize: int): Run {
    if arrivals == [] then r
    else OnArrival(Collected(r, arrivals[..|arrivals| - 1], batchSize), arrivals[|arrivals| - 1], batchSize)
  }

  function Drained(r: Run, s: Script): Run {
    if r.broken || !s.ends then r.(broken := true)
    else if r.batch != [] then Flush(r, s.last)
    else r
  }

  function Closed(r: Run, s: Script, before: Cursor): Outcome {
    var ok := !r.broken && s.saves;
    Outcome(r.store.(claims := r.store.claims - r.unsettled, cursor := if ok then s.next else before), ok, r)
  }

  function RunOnce(store: Store, s: Script, batchSize: int): Outcome {
    match s.entry
    case Skips => Outcome(store, false, Start(store))
    case FailsEarly => Outcome(store.(cursor := Empty), false, Start(store).(broken := true))
    case Loads => Closed(Drained(Collected(Start(store), s.arrivals, batchSize), s), s, store.cursor)
  }

  /** The state a cycle works on: claims in Redis, the stored cursor, the dispatch queue. */
  class Pipeline {
    var claims: set<Id>
    var cursor: Cursor
    var handed: seq<Id>
    var lost: seq<Id>
    const batchSize: int

    constructor (batchSize: int)
      ensures this.batchSize == batchSize && State() == Store({}, Empty, [], [])
    {
      this.batchSize := batchSize;
      claims, cursor, handed, lost := {}, Empty, [], [];
    }

    function State(): Store
      reads this
    {
      Store(claims, cursor, handed, lost)
    }

    method Claim(id: Id) returns (unseen: bool)
      modifies this`claims
      ensures unseen <==> id !in old(claims)
      ensures claims == old(claims) + {id}
    {
      unseen := id !in claims;
      claims := claims + {id};
    }

    method EnqueueDispatch(batch: seq<Id>, e: Enqueue) returns (raised: bool)
      modifies this`handed, this`lost
      ensures raised <==> e.Raises?
      ensures handed == old(handed) + if raised then Picked(batch, e.passedOn, true) else Picked(batch, e.lost, false)
      ensures lost == if raised then old(lost) else old(lost) + Picked(batch, e.lost, true)
    {
      match e
      case Returns(missing) =>
        handed := handed + Picked(batch, missing, false);
        lost := lost + Picked(batch, missing, true);
        raised := false;
      case Raises(some) =>
        handed := handed + Picked(batch, some, true);
        raised := true;
    }

    /** Hand a batch off and settle it; `run` is the specification's view of the cycle so far. */
    method FlushBatch(unsettled: set<Id>, batch: seq<Id>, e: Enqueue, ghost run: Run)
      returns (left: set<Id>, rest: seq<Id>, failed: bool)
      requires run.store == State() && run.unsettled == unsettled && run.batch == batch && !run.broken
      modifies this`handed, this`lost
      ensures var after := Flush(run, e);
              after.store == State() && after.unsettled == left && after.batch == rest && after.broken == failed
      ensures failed <==> e.Raises?
      ensures failed ==> left == unsettled && rest == batch && lost == old(lost)
      ensures !failed ==> left == unsettled - SetOf(batch) && rest == []
      ensures !failed ==> forall x :: x in left <==> x in unsettled && x !in batch
      ensures !failed ==> handed == old(handed) + Picked(batch, e.lost, false)
      ensures !failed ==> lost == old(lost) + Picked(batch, e.lost, true)
      ensures failed ==> handed == old(handed) + Picked(batch, e.passedOn, true)
    {
      failed := EnqueueDispatch(batch, e);
      left, rest := unsettled, batch;
      if !failed {
        left := unsettled - SetOf(batch);
        rest := [];
      }
    }

    /** The body of the collection loop, for one event. */
    method TakeEvent(y: Arrival, unsettled: set<Id>, batch: seq<Id>, ghost run: Run)
      returns (left: set<Id>, rest: seq<Id>, counted: bool, failed: bool, ghost due: bool)
      requires run.store == State() && run.unsettled == unsettled && run.batch == batch && !run.broken
      modifies this`claims, this`handed, this`lost
      ensures var after := OnArrival(run, y, batchSize);
              && after.store == State() && after.unsettled == left && after.batch == rest && after.broken == failed
              && after.count == run.count + if counted then 1 else 0
      ensures claims == old(claims) + {y.id}
      ensures failed <==> y.id !in old(claims) && (y.fate.Raised? || (due && y.enqueue.Raises?))
      ensures counted <==> y.id !in old(claims) && y.fate.Batched?
      ensures due <==> counted && (|batch| + 1 >= batchSize || y.timeUp)
      ensures y.id in old(claims) ==> left == unsettled && rest == batch
      ensures y.id !in old(claims) && (!due || failed) ==> left == unsettled + {y.id}
      ensures rest == if due && !failed then [] else if counted then batch + [y.id] else batch
      ensures due && !failed ==> left == unsettled + {y.id} - SetOf(batch + [y.id])
      ensures !due ==> handed == old(handed) && lost == old(lost)
      ensures due && !failed ==> handed == old(handed) + Picked(batch + [y.id], y.enqueue.lost, false)
      ensures due && !failed ==> lost == old(lost) + Picked(batch + [y.id], y.enqueue.lost, true)
    {
      hide Flush;
      left, rest, counted, failed, due := unsettled, batch, false, false, false;
      var unseen := Claim(y.id);
      if !unseen {
        assert claims == run.store.claims;
        return;
      }
      left := unsettled + {y.id};
      if y.fate.Raised? {
        failed := true;
      } else if y.fate.Batched? {
        rest := batch + [y.id];
        counted := true;
        if |rest| >= batchSize || y.timeUp {
          due := true;
          FlushKeepsCount(Taken(run, y), y.enqueue);
          left, rest, failed := FlushBatch(left, rest, y.enqueue, Taken(run, y));
        }
      }
    }

    /** The collection loop, up to the end of the stream or the first failure. */
    method CollectAll(arrivals: seq<Arrival>)
      returns (unsettled: set<Id>, batch: seq<Id>, count: nat, failed: bool, ghost run: Run)
      modifies this`claims, this`handed, this`lost
      ensures run == Collected(Start(old(State())), arrivals, batchSize)
      ensures run.store == State() && run.broken == failed
      ensures run.unsettled == unsettled && run.batch == batch && run.count == count
    {
      hide OnArrival;
      hide Flush;
      unsettled, batch, count, failed, run := {}, [], 0, false, Start(State());
      var i := 0;
      while i < |arrivals| && !failed
        invariant 0 <= i <= |arrivals|
        invariant run == Collected(Start(old(State())), arrivals[..i], batchSize)
        invariant run.store == State() && run.broken == failed
        invariant run.unsettled == unsettled && run.batch == batch && run.count == count
      {
        assert arrivals[..i + 1][..i] == arrivals[..i];
        var counted: bool;
        ghost var before := run;
        run := OnArrival(run, arrivals[i], batchSize);
        ghost var due: bool;
        unsettled, batch, counted, failed, due := TakeEvent(arrivals[i], unsettled, batch, before);
        if counted {
          count := count + 1;
        }
        i := i + 1;
      }
      if failed {
        BrokenStays(Start(old(State())), arrivals, i, batchSize);
      }
      assert arrivals[..|arrivals|] == arrivals;
    }

    method RunCollectionOnce(s: Script) returns (ok: bool, count: nat)
      modifies this
      ensures State() == RunOnce(old(State()), s, batchSize).store
      ensures ok == RunOnce(old(State()), s, batchSize).ok
      ensures ok ==> count == RunOnce(old(State()), s, batchSize).run.count
      ensures s.entry.Skips? ==> !ok && State() == old(State())
      ensures s.entry.FailsEarly? ==> !ok && State() == old(State()).(cursor := Empty)
      ensures ok ==> cursor == s.next
      ensures s.entry.Loads? && !ok ==> cursor == old(cursor)
    {
      if s.entry.Skips? {
        return false, 0;
      }
      var cursorBefore := Empty;
      var unsettled: set<Id> := {};
      var batch: seq<Id> := [];
      var failed := s.entry.FailsEarly?;
      count := 0;
      hide Collected;
      hide Flush;
      if !failed {
        cursorBefore := cursor;
        ghost var run: Run;
        unsettled, batch, count, failed, run := CollectAll(s.arrivals);
        failed := failed || !s.ends;
        if !failed && batch != [] {
          FlushKeepsCount(run, s.last);
          unsettled, batch, failed := FlushBatch(unsettled, batch, s.last, run);
        }
        failed := failed || !s.saves;
        if !failed {
          cursor := s.next;
        }
      }
      if failed {
        cursor := cursorBefore;
      }
      claims := claims - unsettled;
      ok := !failed;
    }
  }

  lemma FlushKeepsCount(r: Run, e: Enqueue)
    ensures Flush(r, e).count == r.count
    ensures Flush(r, e).store.claims == r.store.claims && Flush(r, e).store.cursor == r.store.cursor
  {
  }

  lemma BrokenIgnores(r: Run, y: Arrival, batchSize: int)
    requires r.broken
    ensures OnArrival(r, y, batchSize) == r
  {
  }

  lemma {:induction false} BrokenStays(r: Run, arrivals: seq<Arrival>, n: nat, batchSize: int)
    requires n <= |arrivals| && Collected(r, arrivals[..n], batchSize).broken
    ensures Collected(r, arrivals, batchSize) == Collected(r, arrivals[..n], batchSize)
    decreases |arrivals|
  {
    hide OnArrival;
    if n < |arrivals| {
      var m := |arrivals| - 1;
      assert arrivals[..m][..n] == arrivals[..n];
      BrokenStays(r, arrivals[..m], n, batchSize);
      BrokenIgnores(Collected(r, arrivals[..m], batchSize), arrivals[m], batchSize);
    } else {
      assert arrivals[..n] == arrivals;
    }
  }
}
