/** Any number of cycles over one store, interleaved: the world when the cycle lock gives way. A cycle
    begins, claims one event at a time, hands a due batch off, drains, saves the cursor and releases its
    claims; anything may happen between any two of these steps. */
module CycleOverlap {
  import opened Cycle

  type CycleId = nat

  /** Collecting, with a batch due for the hand-off it triggered, drained, or with its cursor saved. */
  datatype Phase = Collecting | Due(e: Enqueue) | Finished | Saved

  /** A cycle between its begin and its release; `before` is the cursor it read. */
  datatype Active = Active(run: Run, before: Cursor, phase: Phase)

  /** `setAside` are the ids any cycle diverted on purpose; `done` the outcomes of cycles that saved. */
  datatype World = World(store: Store, setAside: set<Id>, active: map<CycleId, Active>, used: set<CycleId>,
                         done: map<CycleId, Outcome>)

  datatype Step =
    | Begin(c: CycleId)
    | FailEarly(c: CycleId)
    | Claim(c: CycleId, y: Arrival)
    | HandOff(c: CycleId)
    | Drain(c: CycleId, s: Script)
    | Save(c: CycleId, s: Script)
    | Release(c: CycleId)
    | Expire(ids: set<Id>)

  const NEW_WORLD := World(Store({}, Empty, [], []), {}, map[], {}, map[])

  predicate Open(w: World, c: CycleId) {
    c in w.active && !w.active[c].phase.Saved?
  }

  predicate IsCollecting(w: World, c: CycleId) {
    c in w.active && w.active[c].phase.Collecting?
  }

  /** The cycle's own view, with the store as the other cycles left it. */
  function View(w: World, c: CycleId): Run
    requires c in w.active
  {
    w.active[c].run.(store := w.store)
  }

  /** The cycle goes on as `r`, in this phase. */
  function Moved(w: World, c: CycleId, r: Run, phase: Phase): World
    requires c in w.active
  {
    w.(store := r.store, active := w.active[c := Active(r, w.active[c].before, phase)],
       setAside := w.setAside + SetOf(r.diverted))
  }

  function SavedNow(w: World, c: CycleId, s: Script): World
    requires c in w.active
  {
    var r := View(w, c);
    var ok := !r.broken && s.saves;
    var store := w.store.(cursor := if ok then s.next else w.active[c].before);
    w.(store := store, active := w.active[c := Active(r, w.active[c].before, Saved)],
       done := w.done[c := Outcome(store, ok, r)])
  }

  /** One step; a step whose cycle is not at that point changes nothing. */
  function Next(w: World, step: Step, batchSize: int): World {
    match step
    case Begin(c) =>
      if c in w.used then w
      else w.(active := w.active[c := Active(Start(w.store), w.store.cursor, Collecting)], used := w.used + {c})
    case FailEarly(c) =>
      if c in w.used then w else w.(store := w.store.(cursor := Empty), used := w.used + {c})
    case Claim(c, y) =>
      if !IsCollecting(w, c) then w
      else Moved(w, c, Taken(View(w, c), y), if Triggers(View(w, c), y, batchSize) then Due(y.enqueue) else Collecting)
    case HandOff(c) =>
      if c in w.active && w.active[c].phase.Due?
      then Moved(w, c, Flush(View(w, c), w.active[c].phase.e), Collecting) else w
    case Drain(c, s) => if IsCollecting(w, c) then Moved(w, c, Drained(View(w, c), s), Finished) else w
    case Save(c, s) => if c in w.active && w.active[c].phase.Finished? then SavedNow(w, c, s) else w
    case Release(c) =>
      if c in w.active && w.active[c].phase.Saved?
      then w.(store := w.store.(claims := w.store.claims - w.active[c].run.unsettled), active := w.active - {c})
      else w
    case Expire(ids) => w.(store := w.store.(claims := w.store.claims - ids))
  }

  function From(w: World, steps: seq<Step>, batchSize: int): World {
    if steps == [] then w else Next(From(w, steps[..|steps| - 1], batchSize), steps[|steps| - 1], batchSize)
  }

  function After(steps: seq<Step>, batchSize: int): World {
    From(NEW_WORLD, steps, batchSize)
  }

  lemma FromSnoc(w: World, steps: seq<Step>, step: Step, batchSize: int)
    ensures From(w, steps + [step], batchSize) == Next(From(w, steps, batchSize), step, batchSize)
  {
    assert (steps + [step])[..|steps|] == steps;
  }

  // ---- One cycle alone is a cycle ----

  /** Every event is claimed, and a batch that is due is handed off at once. */
  function Arrivals(c: CycleId, arrivals: seq<Arrival>): seq<Step> {
    if arrivals == [] then []
    else Arrivals(c, arrivals[..|arrivals| - 1]) + [Claim(c, arrivals[|arrivals| - 1])] + [HandOff(c)]
  }

  lemma AloneArrives(w: World, c: CycleId, y: Arrival, batchSize: int)
    requires IsCollecting(w, c) && w.store == w.active[c].run.store
    ensures var after := Next(Next(w, Claim(c, y), batchSize), HandOff(c), batchSize);
            && IsCollecting(after, c) && after.active[c].run == OnArrival(w.active[c].run, y, batchSize)
            && after.store == after.active[c].run.store && after.active[c].before == w.active[c].before
  {
    hide Taken;
    hide Flush;
    assert View(w, c) == w.active[c].run;
  }

  lemma {:induction false} AloneCollects(w: World, c: CycleId, arrivals: seq<Arrival>, batchSize: int)
    requires IsCollecting(w, c) && w.active[c].run == Start(w.store)
    ensures var after := From(w, Arrivals(c, arrivals), batchSize);
            && IsCollecting(after, c) && after.active[c].run == Collected(Start(w.store), arrivals, batchSize)
            && after.store == after.active[c].run.store && after.active[c].before == w.active[c].before
  {
    hide OnArrival;
    hide Next;
    if arrivals != [] {
      var init, y := arrivals[..|arrivals| - 1], arrivals[|arrivals| - 1];
      AloneCollects(w, c, init, batchSize);
      FromSnoc(w, Arrivals(c, init), Claim(c, y), batchSize);
      FromSnoc(w, Arrivals(c, init) + [Claim(c, y)], HandOff(c), batchSize);
      hide From;
      AloneArrives(From(w, Arrivals(c, init), batchSize), c, y, batchSize);
    }
  }

  /** A cycle whose steps no other cycle interrupts leaves the store that RunOnce leaves, with the same
      verdict and ledger. */
  lemma AloneIsRunOnce(w: World, c: CycleId, s: Script, batchSize: int)
    requires c !in w.used && s.entry.Loads?
    ensures var collected := From(Next(w, Begin(c), batchSize), Arrivals(c, s.arrivals), batchSize);
            var saved := Next(Next(collected, Drain(c, s), batchSize), Save(c, s), batchSize);
            var out := RunOnce(w.store, s, batchSize);
            && Next(saved, Release(c), batchSize).store == out.store
            && c in saved.done && saved.done[c].ok == out.ok && saved.done[c].run == out.run
  {
    AloneCollects(Next(w, Begin(c), batchSize), c, s.arrivals, batchSize);
    hide Collected;
    hide Drained;
  }

  // ---- What every step keeps ----

  /** Handed off, lost by a returning hand-off, or diverted on purpose, by any cycle so far. */
  predicate Disposed(w: World, x: Id) {
    x in w.store.handed || x in w.store.lost || x in w.setAside
  }

  /** While a cycle is unbroken it knows where everything it was given went. */
  ghost predicate Tracks(w: World, r: Run) {
    && SetOf(r.diverted) <= w.setAside
    && (!r.broken ==>
          && (forall x | x in r.yielded :: x in r.deduped || x in r.batch || Disposed(w, x))
          && (forall x | x in r.unsettled :: x in r.batch || x in r.diverted))
  }

  ghost predicate ClaimsHeld(w: World) {
    forall x | x in w.store.claims :: Disposed(w, x) || exists d | d in w.active :: x in w.active[d].run.unsettled
  }

  ghost predicate AllTracked(w: World) {
    && (forall c | c in w.active :: Tracks(w, w.active[c].run))
    && (forall c | c in w.done :: Tracks(w, w.done[c].run))
  }

  /** A batch is due only in a cycle that has not failed, and is empty once that has drained. */
  predicate InPhase(r: Run, phase: Phase) {
    (phase.Due? ==> !r.broken) && (phase.Finished? && !r.broken ==> r.batch == [])
  }

  /** Which cycles are where, and that one that succeeded has no batch left. */
  ghost predicate Booked(w: World) {
    && w.active.Keys <= w.used && w.done.Keys <= w.used
    && (forall c | c in w.active :: InPhase(w.active[c].run, w.active[c].phase))
    && (forall c | c in w.active && !w.active[c].phase.Saved? :: c !in w.done)
    && (forall c | c in w.active && w.active[c].phase.Saved? :: c in w.done && w.done[c].run == w.active[c].run)
    && (forall c | c in w.done && w.done[c].ok :: !w.done[c].run.broken && w.done[c].run.batch == [])
  }

  ghost predicate Invariant(w: World) {
    ClaimsHeld(w) && AllTracked(w) && Booked(w)
  }

  /** The logs only grow. */
  ghost predicate Grows(a: Store, b: Store) {
    (forall x | x in a.handed :: x in b.handed) && (forall x | x in a.lost :: x in b.lost)
  }

  /** Nothing an earlier moment disposed of comes undone. */
  ghost predicate Later(before: World, after: World) {
    && Grows(before.store, after.store) && before.setAside <= after.setAside
    && (forall c | c in before.done :: c in after.done && after.done[c] == before.done[c])
  }

  /** What a claim, a hand-off or a drain does to the cycle and the logs. */
  ghost predicate Moves(before: Run, after: Run) {
    && Grows(before.store, after.store)
    && (before.broken ==> after.broken)
    && (forall x | x in before.batch ::
          x in after.batch || after.broken || x in after.store.handed || x in after.store.lost)
    && (forall x | x in before.yielded :: x in after.yielded)
    && (forall x | x in after.store.claims ::
          x in before.store.claims || x in after.unsettled || x in after.store.handed || x in after.store.lost)
    && (forall x | x in before.unsettled :: x in after.unsettled || x in after.store.handed || x in after.store.lost)
  }

  lemma TakenMoves(r: Run, y: Arrival)
    ensures Moves(r, Taken(r, y))
    ensures Taken(r, y).store.handed == r.store.handed && Taken(r, y).store.lost == r.store.lost
  {
  }

  lemma FlushMoves(r: Run, e: Enqueue)
    requires !r.broken
    ensures Moves(r, Flush(r, e))
    ensures var after := Flush(r, e);
            && after.diverted == r.diverted && after.yielded == r.yielded && after.deduped == r.deduped
            && (after.broken ==> after.batch == r.batch && after.unsettled == r.unsettled)
            && (!after.broken ==> after.batch == [] && after.unsettled == r.unsettled - SetOf(r.batch)
                                  && forall x | x in r.batch :: x in after.store.handed || x in after.store.lost)
  {
  }

  lemma TakenTracks(w: World, c: CycleId, y: Arrival, phase: Phase)
    requires c in w.active && Tracks(w, w.active[c].run)
    ensures var r := Taken(View(w, c), y); Tracks(Moved(w, c, r, phase), r)
  {
  }

  lemma FlushTracks(w: World, c: CycleId, e: Enqueue, phase: Phase)
    requires c in w.active && Tracks(w, w.active[c].run) && !w.active[c].run.broken
    ensures var r := Flush(View(w, c), e); Tracks(Moved(w, c, r, phase), r)
  {
    FlushMoves(View(w, c), e);
    hide Flush;
  }

  lemma DrainTracks(w: World, c: CycleId, s: Script)
    requires c in w.active && Tracks(w, w.active[c].run)
    ensures var r := Drained(View(w, c), s);
            Moves(View(w, c), r) && Tracks(Moved(w, c, r, Finished), r) && InPhase(r, Finished)
  {
    if !View(w, c).broken {
      FlushMoves(View(w, c), s.last);
    }
    hide Flush;
  }

  lemma TracksLater(before: World, after: World, r: Run)
    requires Tracks(before, r) && Grows(before.store, after.store) && before.setAside <= after.setAside
    ensures Tracks(after, r)
  {
  }

  lemma AllTracksLater(w: World, after: World)
    requires AllTracked(w) && Grows(w.store, after.store) && w.setAside <= after.setAside
    ensures forall c | c in w.active :: Tracks(after, w.active[c].run)
    ensures forall c | c in w.done :: Tracks(after, w.done[c].run)
  {
    forall c | c in w.active ensures Tracks(after, w.active[c].run) {
      TracksLater(w, after, w.active[c].run);
    }
    forall c | c in w.done ensures Tracks(after, w.done[c].run) {
      TracksLater(w, after, w.done[c].run);
    }
  }

  lemma TracksOf(w: World, c: CycleId)
    requires AllTracked(w) && c in w.active
    ensures Tracks(w, w.active[c].run)
  {
  }

  lemma MovedHolds(w: World, c: CycleId, r: Run, phase: Phase)
    requires ClaimsHeld(w) && c in w.active && Moves(View(w, c), r)
    ensures ClaimsHeld(Moved(w, c, r, phase))
  {
    var after := Moved(w, c, r, phase);
    forall x | x in after.store.claims && !Disposed(after, x)
      ensures exists d | d in after.active :: x in after.active[d].run.unsettled
    {
      if x in r.unsettled {
        assert after.active[c].run == r;
      } else {
        assert x in w.store.claims && !Disposed(w, x);
        var d :| d in w.active && x in w.active[d].run.unsettled;
        assert d != c && d in after.active && after.active[d] == w.active[d];
      }
    }
  }

  lemma MovedInvariant(w: World, c: CycleId, r: Run, phase: Phase)
    requires Invariant(w) && Open(w, c) && !phase.Saved? && InPhase(r, phase)
    requires Moves(View(w, c), r) && Tracks(Moved(w, c, r, phase), r)
    ensures Invariant(Moved(w, c, r, phase)) && Later(w, Moved(w, c, r, phase))
  {
    var after := Moved(w, c, r, phase);
    MovedHolds(w, c, r, phase);
    assert Grows(w.store, after.store);
    AllTracksLater(w, after);
    hide Tracks;
    hide Moves;
    hide Grows;
    hide ClaimsHeld;
    hide InPhase;
    assert AllTracked(after);
  }

  lemma ClaimInvariant(w: World, c: CycleId, y: Arrival, batchSize: int)
    requires Invariant(w)
    ensures Invariant(Next(w, Claim(c, y), batchSize)) && Later(w, Next(w, Claim(c, y), batchSize))
  {
    if IsCollecting(w, c) {
      var phase := if Triggers(View(w, c), y, batchSize) then Due(y.enqueue) else Collecting;
      TracksOf(w, c);
      TakenMoves(View(w, c), y);
      TakenTracks(w, c, y, phase);
      assert InPhase(Taken(View(w, c), y), phase);
      hide Invariant;
      hide Taken;
      hide Moves;
      hide Tracks;
      hide InPhase;
      MovedInvariant(w, c, Taken(View(w, c), y), phase);
    }
  }

  lemma HandOffInvariant(w: World, c: CycleId, batchSize: int)
    requires Invariant(w)
    ensures Invariant(Next(w, HandOff(c), batchSize)) && Later(w, Next(w, HandOff(c), batchSize))
  {
    if c in w.active && w.active[c].phase.Due? {
      var e := w.active[c].phase.e;
      TracksOf(w, c);
      assert !w.active[c].run.broken;
      FlushMoves(View(w, c), e);
      FlushTracks(w, c, e, Collecting);
      hide Invariant;
      hide Flush;
      hide Moves;
      hide Tracks;
      MovedInvariant(w, c, Flush(View(w, c), e), Collecting);
    }
  }

  lemma DrainInvariant(w: World, c: CycleId, s: Script, batchSize: int)
    requires Invariant(w)
    ensures Invariant(Next(w, Drain(c, s), batchSize)) && Later(w, Next(w, Drain(c, s), batchSize))
  {
    if IsCollecting(w, c) {
      TracksOf(w, c);
      DrainTracks(w, c, s);
      hide Invariant;
      hide Drained;
      hide Moves;
      hide Tracks;
      hide InPhase;
      MovedInvariant(w, c, Drained(View(w, c), s), Finished);
    }
  }

  lemma SaveInvariant(w: World, c: CycleId, s: Script, batchSize: int)
    requires Invariant(w)
    ensures Invariant(Next(w, Save(c, s), batchSize)) && Later(w, Next(w, Save(c, s), batchSize))
  {
    if c in w.active && w.active[c].phase.Finished? {
      var after := SavedNow(w, c, s);
      SaveBooked(w, c, s);
      SameHolds(w, after, c);
      SameTracks(w, after, c);
      hide Tracks;
      hide ClaimsHeld;
      hide Booked;
      assert AllTracked(after);
    }
  }

  lemma SaveBooked(w: World, c: CycleId, s: Script)
    requires Booked(w) && c in w.active && w.active[c].phase.Finished?
    ensures Booked(SavedNow(w, c, s))
    ensures forall d | d in w.done :: d in SavedNow(w, c, s).done && SavedNow(w, c, s).done[d] == w.done[d]
  {
  }

  lemma SameHolds(w: World, after: World, c: CycleId)
    requires ClaimsHeld(w) && c in w.active && c in after.active
    requires after.active == w.active[c := after.active[c]]
    requires after.active[c].run.unsettled == w.active[c].run.unsettled
    requires after.store.claims == w.store.claims && after.setAside == w.setAside
    requires after.store.handed == w.store.handed && after.store.lost == w.store.lost
    ensures ClaimsHeld(after)
  {
    forall x | x in after.store.claims && !Disposed(after, x)
      ensures exists d | d in after.active :: x in after.active[d].run.unsettled
    {
      var d :| d in w.active && x in w.active[d].run.unsettled;
      assert d in after.active && after.active[d].run.unsettled == w.active[d].run.unsettled;
    }
  }

  lemma SameTracks(w: World, after: World, c: CycleId)
    requires AllTracked(w) && c in w.active && after.setAside == w.setAside
    requires after.store.handed == w.store.handed && after.store.lost == w.store.lost
    ensures Tracks(after, View(w, c))
    ensures forall d | d in w.active :: Tracks(after, w.active[d].run)
    ensures forall d | d in w.done :: Tracks(after, w.done[d].run)
  {
    AllTracksLater(w, after);
  }

  lemma ReleaseInvariant(w: World, c: CycleId, batchSize: int)
    requires Invariant(w)
    ensures Invariant(Next(w, Release(c), batchSize)) && Later(w, Next(w, Release(c), batchSize))
  {
    var after := Next(w, Release(c), batchSize);
    if after != w {
      forall x | x in after.store.claims && !Disposed(after, x)
        ensures exists d | d in after.active :: x in after.active[d].run.unsettled
      {
        var d :| d in w.active && x in w.active[d].run.unsettled;
        assert d != c && d in after.active && after.active[d] == w.active[d];
      }
      AllTracksLater(w, after);
      hide Tracks;
    }
  }

  lemma BeginInvariant(w: World, c: CycleId, batchSize: int)
    requires Invariant(w)
    ensures Invariant(Next(w, Begin(c), batchSize)) && Later(w, Next(w, Begin(c), batchSize))
  {
    var after := Next(w, Begin(c), batchSize);
    if c !in w.used {
      assert Tracks(after, Start(w.store));
      forall x | x in after.store.claims && !Disposed(after, x)
        ensures exists d | d in after.active :: x in after.active[d].run.unsettled
      {
        var d :| d in w.active && x in w.active[d].run.unsettled;
        assert d != c && d in after.active && after.active[d] == w.active[d];
      }
      AllTracksLater(w, after);
      hide Tracks;
    }
  }

  /** A step that leaves the cycles alone and takes no claim. */
  lemma QuietInvariant(w: World, after: World)
    requires Invariant(w) && after.active == w.active && after.done == w.done && after.setAside == w.setAside
    requires w.used <= after.used && after.store.claims <= w.store.claims
    requires after.store.handed == w.store.handed && after.store.lost == w.store.lost
    ensures Invariant(after) && Later(w, after)
  {
    AllTracksLater(w, after);
    hide Tracks;
  }

  lemma NextInvariant(w: World, step: Step, batchSize: int)
    requires Invariant(w)
    ensures Invariant(Next(w, step, batchSize)) && Later(w, Next(w, step, batchSize))
  {
    hide Invariant;
    match step
    case Begin(c) => BeginInvariant(w, c, batchSize);
    case Claim(c, y) => ClaimInvariant(w, c, y, batchSize);
    case HandOff(c) => HandOffInvariant(w, c, batchSize);
    case Drain(c, s) => DrainInvariant(w, c, s, batchSize);
    case Save(c, s) => SaveInvariant(w, c, s, batchSize);
    case Release(c) => ReleaseInvariant(w, c, batchSize);
    case _ => QuietInvariant(w, Next(w, step, batchSize));
  }

  lemma {:induction false} Invariants(steps: seq<Step>, batchSize: int)
    ensures Invariant(After(steps, batchSize))
  {
    if steps != [] {
      Invariants(steps[..|steps| - 1], batchSize);
      NextInvariant(After(steps[..|steps| - 1], batchSize), steps[|steps| - 1], batchSize);
    }
  }

  lemma {:induction false} WorldsLater(steps: seq<Step>, n: nat, batchSize: int)
    requires n <= |steps|
    ensures Later(After(steps[..n], batchSize), After(steps, batchSize))
    decreases |steps|
  {
    if n < |steps| {
      var init := steps[..|steps| - 1];
      assert init[..n] == steps[..n];
      WorldsLater(init, n, batchSize);
      Invariants(init, batchSize);
      NextInvariant(After(init, batchSize), steps[|steps| - 1], batchSize);
    } else {
      assert steps[..n] == steps;
    }
  }

  // ---- When overlapping cycles lose an event ----

  /** A cycle moved the cursor on, and an event it was given was neither handed off nor diverted nor
      logged as lost by a hand-off, in this cycle or any other. */
  ghost predicate Lost(w: World, c: CycleId, x: Id) {
    c in w.done && w.done[c].ok && x in w.done[c].run.yielded && !Disposed(w, x)
  }

  /** The k-th step is cycle `c` dropping `x` as a duplicate. */
  ghost predicate DedupedAt(steps: seq<Step>, batchSize: int, k: nat, c: CycleId, x: Id) {
    && k < |steps| && steps[k].Claim? && steps[k].c == c && steps[k].y.id == x
    && var w := After(steps[..k], batchSize);
    IsCollecting(w, c) && !w.active[c].run.broken && x in w.store.claims
  }

  /** A cycle between its begin and its release holds the claim unsettled. */
  predicate Holds(w: World, d: CycleId, x: Id) {
    d in w.active && x in w.active[d].run.unsettled
  }

  /** At that moment another cycle holds the claim. */
  ghost predicate HeldBy(steps: seq<Step>, batchSize: int, k: nat, c: CycleId, x: Id, d: CycleId)
    requires k <= |steps|
  {
    d != c && Holds(After(steps[..k], batchSize), d, x)
  }

  /** A step that disposes of an id: it is diverted, or a hand-off of its batch returns or passes it on. */
  predicate Disposes(w: World, step: Step, x: Id) {
    match step
    case Claim(c, y) =>
      IsCollecting(w, c) && !w.active[c].run.broken && y.id == x && x !in w.store.claims && y.fate.Diverted?
    case HandOff(c) =>
      && c in w.active && w.active[c].phase.Due? && x in w.active[c].run.batch
      && (w.active[c].phase.e.Returns? || x in w.active[c].phase.e.passedOn)
    case Drain(c, s) =>
      && IsCollecting(w, c) && !w.active[c].run.broken && s.ends && x in w.active[c].run.batch
      && (s.last.Returns? || x in s.last.passedOn)
    case _ => false
  }

  /** Nobody disposed of the id before the k-th step, and no step from there on does. */
  ghost predicate NeverDisposed(steps: seq<Step>, batchSize: int, k: nat, x: Id)
    requires k <= |steps|
  {
    && !Disposed(After(steps[..k], batchSize), x)
    && forall m | k <= m < |steps| :: !Disposes(After(steps[..m], batchSize), steps[m], x)
  }

  /** The holder failed and released the claim at some step from the k-th on, or holds it to the end
      without having succeeded. */
  ghost predicate GaveUp(steps: seq<Step>, batchSize: int, k: nat, d: CycleId, x: Id)
    requires k <= |steps|
  {
    || (exists m | k <= m < |steps| :: FailedAndReleased(steps, batchSize, m, d, x))
    || (Holds(After(steps, batchSize), d, x) && !Succeeded(After(steps, batchSize), d))
  }

  ghost predicate FailedAndReleased(steps: seq<Step>, batchSize: int, m: nat, d: CycleId, x: Id)
    requires m < |steps|
  {
    var w := After(steps[..m], batchSize);
    steps[m] == Release(d) && Holds(w, d, x) && d in w.done && !w.done[d].ok
  }

  predicate Succeeded(w: World, c: CycleId) {
    c in w.done && w.done[c].ok
  }

  lemma FlushDisposes(r: Run, e: Enqueue, x: Id)
    ensures x in Flush(r, e).store.handed || x in Flush(r, e).store.lost <==>
            || x in r.store.handed || x in r.store.lost
            || (x in r.batch && (e.Returns? || x in e.passedOn))
    ensures Flush(r, e).diverted == r.diverted
  {
  }

  lemma DisposedStep(w: World, step: Step, x: Id, batchSize: int)
    requires Invariant(w)
    ensures Disposed(Next(w, step, batchSize), x) <==> Disposed(w, x) || Disposes(w, step, x)
  {
    match step {
      case Claim(c, y) => if c in w.active { TracksOf(w, c); }
      case HandOff(c) =>
        if c in w.active && w.active[c].phase.Due? {
          TracksOf(w, c);
          FlushDisposes(View(w, c), w.active[c].phase.e, x);
        }
      case Drain(c, s) =>
        if c in w.active {
          TracksOf(w, c);
          FlushDisposes(View(w, c), s.last, x);
        }
      case _ =>
    }
    hide Flush;
    hide ClaimsHeld;
    hide AllTracked;
    hide Booked;
  }

  lemma NeverDisposedSnoc(init: seq<Step>, step: Step, k: nat, x: Id, batchSize: int)
    requires k <= |init|
    ensures NeverDisposed(init + [step], batchSize, k, x) <==>
            NeverDisposed(init, batchSize, k, x) && !Disposes(After(init, batchSize), step, x)
  {
    hide Disposed;
    hide Disposes;
    hide After;
    var steps := init + [step];
    assert steps[..k] == init[..k] && steps[..|init|] == init && steps[|init|] == step;
    forall m | k <= m < |init| ensures steps[..m] == init[..m] && steps[m] == init[m] {}
  }

  lemma {:induction false} NeverDisposedIff(steps: seq<Step>, k: nat, x: Id, batchSize: int)
    requires k <= |steps|
    ensures !Disposed(After(steps, batchSize), x) <==> NeverDisposed(steps, batchSize, k, x)
    decreases |steps|
  {
    hide Disposed;
    hide Disposes;
    if k < |steps| {
      var init, step := steps[..|steps| - 1], steps[|steps| - 1];
      assert steps == init + [step];
      NeverDisposedIff(init, k, x, batchSize);
      NeverDisposedSnoc(init, step, k, x, batchSize);
      hide NeverDisposed;
      Invariants(init, batchSize);
      DisposedStep(After(init, batchSize), step, x, batchSize);
      FromSnoc(NEW_WORLD, init, step, batchSize);
      hide Next;
      hide Invariant;
    } else {
      assert steps[..k] == steps;
    }
  }

  /** Between its begin and its release a cycle forgets nothing it was given, and no claim but by a
      hand-off. */
  lemma CycleStep(w: World, step: Step, c: CycleId, batchSize: int)
    requires Invariant(w) && c in w.active && step != Release(c)
    ensures var after := Next(w, step, batchSize);
            && c in after.active
            && (forall x | x in w.active[c].run.yielded :: x in after.active[c].run.yielded)
            && (forall x | x in w.active[c].run.unsettled :: x in after.active[c].run.unsettled || Disposed(after, x))
  {
    match step {
      case Claim(b, y) => if b == c { TakenMoves(View(w, c), y); }
      case HandOff(b) =>
        if b == c && w.active[c].phase.Due? {
          FlushMoves(View(w, c), w.active[c].phase.e);
        }
      case Drain(b, s) =>
        if b == c {
          TracksOf(w, c);
          DrainTracks(w, c, s);
        }
      case _ =>
    }
    hide Taken;
    hide Flush;
    hide Drained;
    hide Tracks;
    hide ClaimsHeld;
    hide AllTracked;
  }

  lemma StillUnsettled(w: World, d: CycleId, x: Id)
    requires Invariant(w) && Holds(w, d, x) && !Disposed(w, x)
    ensures !Succeeded(w, d)
  {
    TracksOf(w, d);
    var r := w.active[d].run;
    assert forall y :: y in r.diverted ==> y in SetOf(r.diverted);
  }

  /** One more step: the holder still holds the id, or has failed and releases it. */
  lemma HoldsOn(w: World, step: Step, d: CycleId, x: Id, batchSize: int)
    requires Invariant(w) && Holds(w, d, x) && !Disposed(Next(w, step, batchSize), x)
    ensures var after := Next(w, step, batchSize);
            || (Holds(after, d, x) && !Succeeded(after, d))
            || (step == Release(d) && d in w.done && !w.done[d].ok)
  {
    NextInvariant(w, step, batchSize);
    var after := Next(w, step, batchSize);
    NotYetDisposed(w, after, x);
    if step != Release(d) {
      CycleStep(w, step, d, batchSize);
      hide Next;
      hide Invariant;
      StillUnsettled(after, d, x);
    } else if w.active[d].phase.Saved? {
      StillUnsettled(w, d, x);
      hide ClaimsHeld;
      hide AllTracked;
    } else {
      hide Invariant;
      StillUnsettled(after, d, x);
    }
  }

  lemma GaveUpSnoc(init: seq<Step>, step: Step, k: nat, d: CycleId, x: Id, batchSize: int)
    requires k <= |init| && GaveUp(init, batchSize, k, d, x)
    requires var w, after := After(init, batchSize), After(init + [step], batchSize);
             Holds(w, d, x) ==> || (Holds(after, d, x) && !Succeeded(after, d))
                                || (step == Release(d) && d in w.done && !w.done[d].ok)
    ensures GaveUp(init + [step], batchSize, k, d, x)
  {
    hide After;
    var steps := init + [step];
    assert steps[..|init|] == init && steps[|init|] == step;
    if m :| k <= m < |init| && FailedAndReleased(init, batchSize, m, d, x) {
      assert steps[..m] == init[..m] && steps[m] == init[m];
      assert FailedAndReleased(steps, batchSize, m, d, x);
    } else if step == Release(d) && d in After(init, batchSize).done && !After(init, batchSize).done[d].ok {
      assert FailedAndReleased(steps, batchSize, |init|, d, x);
    }
  }

  /** A cycle that holds an id nobody ever disposes of gives it up without success. */
  lemma {:induction false} HolderGivesUp(steps: seq<Step>, k: nat, d: CycleId, x: Id, batchSize: int)
    requires k <= |steps| && Holds(After(steps[..k], batchSize), d, x) && !Disposed(After(steps, batchSize), x)
    ensures GaveUp(steps, batchSize, k, d, x)
    decreases |steps|
  {
    hide Disposed;
    hide Holds;
    hide Next;
    if k == |steps| {
      assert steps[..k] == steps;
      Invariants(steps, batchSize);
      StillUnsettled(After(steps, batchSize), d, x);
    } else {
      var init, step := steps[..|steps| - 1], steps[|steps| - 1];
      assert steps == init + [step] && init[..k] == steps[..k];
      Invariants(init, batchSize);
      FromSnoc(NEW_WORLD, init, step, batchSize);
      NextInvariant(After(init, batchSize), step, batchSize);
      hide Invariant;
      NotYetDisposed(After(init, batchSize), After(steps, batchSize), x);
      HolderGivesUp(init, k, d, x, batchSize);
      if Holds(After(init, batchSize), d, x) {
        HoldsOn(After(init, batchSize), step, d, x, batchSize);
      }
      hide GaveUp;
      GaveUpSnoc(init, step, k, d, x, batchSize);
    }
  }

  lemma GaveUpFailed(steps: seq<Step>, k: nat, d: CycleId, x: Id, batchSize: int)
    requires k <= |steps| && GaveUp(steps, batchSize, k, d, x)
    ensures !Succeeded(After(steps, batchSize), d)
  {
    if m :| k <= m < |steps| && FailedAndReleased(steps, batchSize, m, d, x) {
      WorldsLater(steps, m, batchSize);
    }
  }

  /** What a cycle was given stays on its record. */
  ghost predicate Recorded(w: World, c: CycleId, x: Id) {
    || (Open(w, c) && x in w.active[c].run.yielded)
    || (c in w.done && x in w.done[c].run.yielded)
  }

  lemma RecordedStep(w: World, step: Step, c: CycleId, x: Id, batchSize: int)
    requires Invariant(w) && Recorded(w, c, x)
    ensures Recorded(Next(w, step, batchSize), c, x)
  {
    NextInvariant(w, step, batchSize);
    if Open(w, c) {
      if step != Release(c) {
        CycleStep(w, step, c, batchSize);
        hide Next;
      }
    }
    hide ClaimsHeld;
    hide AllTracked;
  }

  lemma {:induction false} RecordedOn(steps: seq<Step>, k: nat, c: CycleId, x: Id, batchSize: int)
    requires k <= |steps| && Recorded(After(steps[..k], batchSize), c, x)
    ensures Recorded(After(steps, batchSize), c, x)
    decreases |steps|
  {
    if k < |steps| {
      var init := steps[..|steps| - 1];
      assert init[..k] == steps[..k];
      RecordedOn(init, k, c, x, batchSize);
      Invariants(init, batchSize);
      RecordedStep(After(init, batchSize), steps[|steps| - 1], c, x, batchSize);
    } else {
      assert steps[..k] == steps;
    }
  }

  /** The cycle has dropped the id as a duplicate. */
  ghost predicate Deduped(w: World, c: CycleId, x: Id) {
    (c in w.active && x in w.active[c].run.deduped) || (c in w.done && x in w.done[c].run.deduped)
  }

  lemma DedupedNow(w: World, step: Step, c: CycleId, x: Id, batchSize: int)
    requires Deduped(Next(w, step, batchSize), c, x) && !Deduped(w, c, x)
    ensures step.Claim? && step.c == c && step.y.id == x
    ensures IsCollecting(w, c) && !w.active[c].run.broken && x in w.store.claims
  {
    hide Flush;
    if step.HandOff? && c in w.active && w.active[c].phase.Due? {
      FlushKeepsDeduped(View(w, c), w.active[c].phase.e);
    } else if step.Drain? && c in w.active {
      FlushKeepsDeduped(View(w, c), step.s.last);
    }
  }

  lemma FlushKeepsDeduped(r: Run, e: Enqueue)
    ensures Flush(r, e).deduped == r.deduped
  {
  }

  lemma {:induction false} DedupeMoment(steps: seq<Step>, c: CycleId, x: Id, batchSize: int) returns (k: nat)
    requires Deduped(After(steps, batchSize), c, x)
    ensures DedupedAt(steps, batchSize, k, c, x)
  {
    hide Deduped;
    assert steps != [] by {
      if steps == [] {
        NothingYet(c, x);
      }
    }
    var init := steps[..|steps| - 1];
    if Deduped(After(init, batchSize), c, x) {
      k := DedupeMoment(init, c, x, batchSize);
      assert init[..k] == steps[..k];
    } else {
      k := |steps| - 1;
      DedupedNow(After(init, batchSize), steps[k], c, x, batchSize);
    }
  }

  lemma NothingYet(c: CycleId, x: Id)
    ensures !Deduped(NEW_WORLD, c, x)
  {
  }

  lemma LostWasDuplicate(w: World, c: CycleId, x: Id)
    requires Invariant(w) && Lost(w, c, x)
    ensures Deduped(w, c, x)
  {
    assert Tracks(w, w.done[c].run);
  }

  lemma NotYetDisposed(before: World, after: World, x: Id)
    requires Later(before, after) && !Disposed(after, x)
    ensures !Disposed(before, x)
  {
  }

  /** A success lost an id only if it dropped it as a duplicate of another cycle's unsettled claim. */
  lemma LossWasDeduped(steps: seq<Step>, c: CycleId, x: Id, batchSize: int) returns (k: nat, d: CycleId)
    requires Lost(After(steps, batchSize), c, x)
    ensures DedupedAt(steps, batchSize, k, c, x) && HeldBy(steps, batchSize, k, c, x, d)
  {
    var w := After(steps, batchSize);
    Invariants(steps, batchSize);
    LostWasDuplicate(w, c, x);
    k := DedupeMoment(steps, c, x, batchSize);
    var moment := After(steps[..k], batchSize);
    Invariants(steps[..k], batchSize);
    WorldsLater(steps, k, batchSize);
    NotYetDisposed(moment, w, x);
    hide Disposed;
    assert ClaimsHeld(moment);
    d :| d in moment.active && x in moment.active[d].run.unsettled;
    if d == c {
      HolderGivesUp(steps, k, c, x, batchSize);
      GaveUpFailed(steps, k, c, x, batchSize);
      assert false;
    }
  }

  lemma DuplicateIsRecorded(steps: seq<Step>, k: nat, c: CycleId, x: Id, batchSize: int)
    requires DedupedAt(steps, batchSize, k, c, x)
    ensures Recorded(After(steps, batchSize), c, x)
  {
    assert steps[..k + 1] == steps[..k] + [steps[k]];
    FromSnoc(NEW_WORLD, steps[..k], steps[k], batchSize);
    RecordedOn(steps, k + 1, c, x, batchSize);
  }

  /** How a success comes to lose an id: it drops it as a duplicate while another cycle holds the claim,
      that cycle gives the claim up without success, and no step before or after disposes of the id. */
  ghost predicate LossPattern(steps: seq<Step>, batchSize: int, k: nat, c: CycleId, x: Id, d: CycleId) {
    && DedupedAt(steps, batchSize, k, c, x) && HeldBy(steps, batchSize, k, c, x, d)
    && GaveUp(steps, batchSize, k, d, x) && NeverDisposed(steps, batchSize, k, x)
  }

  /** In every interleaving of cycles, expiring claims included: a cycle that succeeded lost an id if and
      only if it went that way. */
  lemma LostIff(steps: seq<Step>, c: CycleId, x: Id, batchSize: int)
    ensures Lost(After(steps, batchSize), c, x) <==>
            && Succeeded(After(steps, batchSize), c)
            && exists k: nat, d: CycleId :: LossPattern(steps, batchSize, k, c, x, d)
  {
    var w := After(steps, batchSize);
    if Lost(w, c, x) {
      var k, d := LossWasDeduped(steps, c, x, batchSize);
      HolderGivesUp(steps, k, d, x, batchSize);
      NeverDisposedIff(steps, k, x, batchSize);
      assert LossPattern(steps, batchSize, k, c, x, d);
    }
    if k: nat, d: CycleId :| Succeeded(w, c) && LossPattern(steps, batchSize, k, c, x, d) {
      NeverDisposedIff(steps, k, x, batchSize);
      Invariants(steps, batchSize);
      DuplicateIsRecorded(steps, k, c, x, batchSize);
    }
  }

  /** So overlapping alone loses nothing: if every cycle that began has saved and succeeded, every id any
      of them was given is disposed of. */
  lemma NoFailureNoLoss(steps: seq<Step>, c: CycleId, x: Id, batchSize: int)
    requires forall d | d in After(steps, batchSize).active :: After(steps, batchSize).active[d].phase.Saved?
    requires forall d | d in After(steps, batchSize).done :: After(steps, batchSize).done[d].ok
    ensures !Lost(After(steps, batchSize), c, x)
  {
    if Lost(After(steps, batchSize), c, x) {
      var k, d := LossWasDeduped(steps, c, x, batchSize);
      Invariants(steps, batchSize);
      HolderGivesUp(steps, k, d, x, batchSize);
      GaveUpEnds(steps, k, d, x, batchSize);
    }
  }

  lemma GaveUpEnds(steps: seq<Step>, k: nat, d: CycleId, x: Id, batchSize: int)
    requires k <= |steps| && GaveUp(steps, batchSize, k, d, x)
    ensures var w := After(steps, batchSize); (d in w.done && !w.done[d].ok) || Open(w, d)
  {
    Invariants(steps, batchSize);
    if m :| k <= m < |steps| && FailedAndReleased(steps, batchSize, m, d, x) {
      WorldsLater(steps, m, batchSize);
    }
  }

  /** Nor do failures without overlap: with at most one cycle between its begin and its release at any
      moment, which is what the cycle lock is for, nothing is lost. */
  lemma NoOverlapNoLoss(steps: seq<Step>, c: CycleId, x: Id, batchSize: int)
    requires forall k, a, b | 0 <= k <= |steps| ::
               a in After(steps[..k], batchSize).active && b in After(steps[..k], batchSize).active ==> a == b
    ensures !Lost(After(steps, batchSize), c, x)
  {
    if Lost(After(steps, batchSize), c, x) {
      var k, d := LossWasDeduped(steps, c, x, batchSize);
    }
  }
}
