/** Any number of callers of one domain's semaphore. Reading the clock and running the script are
    separate steps, so a script may run with an old reading; a reply may be lost after the script ran,
    and a release may fail. */
module LimiterRuns {
  import opened DomainLimiter

  /** Where a slot call is. `Done` also covers a call that failed: it never releases. */
  datatype Call = Armed(read: nat) | Holding(since: nat) | Done

  /** The script granted a slot at server time `at`, to a caller that had read `score`. */
  datatype Acquired = Acquired(token: Token, at: nat, score: nat)

  datatype State = State(now: nat, store: Store, calls: map<Token, Call>, acquisitions: seq<Acquired>)

  datatype Step =
    | Tick(elapsed: nat)
    | ReadClock(t: Token)
    | Try(t: Token)
    | TryFault(t: Token, applied: bool)
    | Release(t: Token)
    | ReleaseFault(t: Token, applied: bool)

  function Scripted(s: State, t: Token, read: nat, limit: int, granted: Call, refused: Call): State {
    var grants := Grants(s.store, s.now, read, limit);
    State(s.now, Evaluated(s.store, s.now, read, limit, t),
          s.calls[t := if grants then granted else refused],
          if grants then s.acquisitions + [Acquired(t, s.now, read)] else s.acquisitions)
  }

  /** One step; a step whose call is not at that point changes nothing. */
  function Next(s: State, step: Step, limit: int): State {
    match step
    case Tick(elapsed) => s.(now := s.now + elapsed)
    case ReadClock(t) => if t in s.calls && !s.calls[t].Armed? then s else s.(calls := s.calls[t := Armed(s.now)])
    case Try(t) =>
      if t !in s.calls || !s.calls[t].Armed? then s
      else Scripted(s, t, s.calls[t].read, limit, Holding(s.calls[t].read), s.calls[t])
    case TryFault(t, applied) =>
      if t !in s.calls || !s.calls[t].Armed? then s
      else if applied then Scripted(s, t, s.calls[t].read, limit, Done, Done)
      else s.(calls := s.calls[t := Done])
    case Release(t) =>
      if t !in s.calls || !s.calls[t].Holding? then s
      else s.(calls := s.calls[t := Done], store := s.store.(entries := s.store.entries - {t}))
    case ReleaseFault(t, applied) =>
      if t !in s.calls || !s.calls[t].Holding? then s
      else if applied then s.(calls := s.calls[t := Done], store := s.store.(entries := s.store.entries - {t}))
      else s.(calls := s.calls[t := Done])
  }

  function Run(steps: seq<Step>, limit: int): State {
    if steps == [] then State(0, Store(map[], 0), map[], [])
    else Next(Run(steps[..|steps| - 1], limit), steps[|steps| - 1], limit)
  }

  /** A call that got its slot less than one lease after it read the clock. */
  ghost predicate InLease(s: State, t: Token) {
    t in s.calls && s.calls[t].Holding? && s.now < s.calls[t].since + LEASE_MS
  }

  ghost predicate Bounded(store: Store, limit: int) {
    |store.entries| <= if limit >= 0 then limit else 0
  }

  ghost predicate HoldersStored(s: State) {
    forall t | InLease(s, t) :: t in s.store.entries && s.store.entries[t] == s.calls[t].since
  }

  predicate Granted(a: Acquired, t: Token, score: nat) {
    a.token == t && a.score == score
  }

  /** Everything stored was granted by now, and the key outlives every lease it holds. */
  ghost predicate Timed(s: State) {
    && (forall t | t in s.calls && s.calls[t].Armed? :: s.calls[t].read <= s.now)
    && (forall i :: 0 <= i < |s.acquisitions| ==> s.acquisitions[i].score <= s.acquisitions[i].at <= s.now)
    && (forall t | t in s.store.entries ::
          && s.store.entries[t] + LEASE_MS <= s.store.expiresAt
          && exists i :: 0 <= i < |s.acquisitions| && Granted(s.acquisitions[i], t, s.store.entries[t]))
  }

  ghost predicate Invariant(s: State, limit: int) {
    Bounded(s.store, limit) && HoldersStored(s) && Timed(s)
  }

  lemma ScriptBounded(store: Store, clock: nat, read: nat, limit: int, t: Token)
    requires Bounded(store, limit)
    ensures Bounded(Evaluated(store, clock, read, limit, t), limit)
  {
    var kept := Unexpired(Visible(store, clock), read);
    Submap(kept, store.entries);
    AddedCount(kept, t, read);
  }

  lemma ScriptKeepsHolders(s: State, t: Token, limit: int, granted: Call, refused: Call)
    requires HoldersStored(s) && Timed(s) && t in s.calls && s.calls[t].Armed?
    requires granted.Holding? ==> granted.since == s.calls[t].read
    requires !refused.Holding?
    ensures HoldersStored(Scripted(s, t, s.calls[t].read, limit, granted, refused))
  {
    var read := s.calls[t].read;
    var after := Scripted(s, t, read, limit, granted, refused);
    hide Granted;
    forall u | InLease(after, u) ensures u in after.store.entries && after.store.entries[u] == after.calls[u].since {
      if u != t {
        assert InLease(s, u);
      }
    }
  }

  lemma ScriptTimed(s: State, t: Token, limit: int, granted: Call, refused: Call)
    requires Timed(s) && t in s.calls && s.calls[t].Armed?
    ensures Timed(Scripted(s, t, s.calls[t].read, limit, granted, refused).(calls := s.calls))
  {
    var read := s.calls[t].read;
    var after := Scripted(s, t, read, limit, granted, refused).(calls := s.calls);
    forall u | u in after.store.entries
      ensures exists i :: 0 <= i < |after.acquisitions| && Granted(after.acquisitions[i], u, after.store.entries[u])
    {
      if u == t && Grants(s.store, s.now, read, limit) {
        assert Granted(after.acquisitions[|s.acquisitions|], u, read);
      } else {
        var i :| 0 <= i < |s.acquisitions| && Granted(s.acquisitions[i], u, s.store.entries[u]);
        assert after.acquisitions[i] == s.acquisitions[i];
      }
    }
  }

  /** Ending a call, with or without its entry leaving the set. */
  lemma Freed(s: State, t: Token)
    requires HoldersStored(s)
    ensures var ended := s.(calls := s.calls[t := Done]);
            HoldersStored(ended) && HoldersStored(ended.(store := s.store.(entries := s.store.entries - {t})))
    ensures |s.store.entries - {t}| <= |s.store.entries|
  {
    var ended := s.(calls := s.calls[t := Done]);
    var removed := ended.(store := s.store.(entries := s.store.entries - {t}));
    forall u | InLease(ended, u) || InLease(removed, u) ensures u != t && InLease(s, u) {}
    Submap(s.store.entries - {t}, s.store.entries);
  }

  lemma FreedTimed(s: State, t: Token)
    requires Timed(s)
    ensures var ended := s.(calls := s.calls[t := Done]);
            Timed(ended) && Timed(ended.(store := s.store.(entries := s.store.entries - {t})))
  {
    hide Granted;
  }

  lemma TickInvariant(s: State, elapsed: nat, limit: int)
    requires Invariant(s, limit)
    ensures Invariant(Next(s, Tick(elapsed), limit), limit)
  {
    forall u | InLease(Next(s, Tick(elapsed), limit), u) ensures InLease(s, u) {}
  }

  lemma ReadInvariant(s: State, t: Token, limit: int)
    requires Invariant(s, limit)
    ensures Invariant(Next(s, ReadClock(t), limit), limit)
  {
    forall u | InLease(Next(s, ReadClock(t), limit), u) ensures InLease(s, u) {}
  }

  lemma ScriptInvariant(s: State, t: Token, limit: int, granted: Call, refused: Call)
    requires Invariant(s, limit) && t in s.calls && s.calls[t].Armed?
    requires granted == Done || granted == Holding(s.calls[t].read)
    requires refused == Done || refused == s.calls[t]
    ensures Invariant(Scripted(s, t, s.calls[t].read, limit, granted, refused), limit)
  {
    ScriptBounded(s.store, s.now, s.calls[t].read, limit, t);
    ScriptKeepsHolders(s, t, limit, granted, refused);
    ScriptTimed(s, t, limit, granted, refused);
    hide Granted;
    hide Evaluated;
    hide Grants;
    hide HoldersStored;
  }

  lemma TryInvariant(s: State, t: Token, limit: int)
    requires Invariant(s, limit)
    ensures Invariant(Next(s, Try(t), limit), limit)
    ensures Invariant(Next(s, TryFault(t, true), limit), limit)
  {
    if t in s.calls && s.calls[t].Armed? {
      ScriptInvariant(s, t, limit, Holding(s.calls[t].read), s.calls[t]);
      ScriptInvariant(s, t, limit, Done, Done);
    }
    hide Invariant;
    hide Scripted;
  }

  lemma TryLostInvariant(s: State, t: Token, limit: int)
    requires Invariant(s, limit)
    ensures Invariant(Next(s, TryFault(t, false), limit), limit)
  {
    hide HoldersStored;
    hide Timed;
    hide Scripted;
    Freed(s, t);
    FreedTimed(s, t);
  }

  lemma ReleaseInvariant(s: State, t: Token, limit: int)
    requires Invariant(s, limit)
    ensures Invariant(Next(s, Release(t), limit), limit)
    ensures forall applied :: Invariant(Next(s, ReleaseFault(t, applied), limit), limit)
  {
    hide HoldersStored;
    hide Timed;
    hide Scripted;
    Freed(s, t);
    FreedTimed(s, t);
  }

  lemma NextInvariant(s: State, step: Step, limit: int)
    requires Invariant(s, limit)
    ensures Invariant(Next(s, step, limit), limit)
  {
    hide Invariant;
    hide Next;
    match step
    case Tick(elapsed) => TickInvariant(s, elapsed, limit);
    case ReadClock(t) => ReadInvariant(s, t, limit);
    case Try(t) => TryInvariant(s, t, limit);
    case TryFault(t, applied) => if applied { TryInvariant(s, t, limit); } else { TryLostInvariant(s, t, limit); }
    case Release(t) => ReleaseInvariant(s, t, limit);
    case ReleaseFault(t, applied) => ReleaseInvariant(s, t, limit);
  }

  lemma {:induction false} Invariants(steps: seq<Step>, limit: int)
    ensures Invariant(Run(steps, limit), limit)
  {
    if steps != [] {
      Invariants(steps[..|steps| - 1], limit);
      NextInvariant(Run(steps[..|steps| - 1], limit), steps[|steps| - 1], limit);
    }
  }

  // ---- What follows for every run ----

  /** In every interleaving the set never exceeds the limit. */
  lemma NeverOverLimit(steps: seq<Step>, limit: int)
    requires limit >= 0
    ensures var s := Run(steps, limit); |Visible(s.store, s.now)| <= limit
  {
    Invariants(steps, limit);
  }

  /** A holder keeps its entry, under its own score, for one lease after it read the clock. */
  lemma HolderKeepsToken(steps: seq<Step>, limit: int, t: Token)
    requires InLease(Run(steps, limit), t)
    ensures var s := Run(steps, limit);
            t in Visible(s.store, s.now) && Visible(s.store, s.now)[t] == s.calls[t].since
  {
    Invariants(steps, limit);
  }

  /** At most `limit` requests younger than one lease run at any moment. */
  lemma HoldersWithinLimit(steps: seq<Step>, limit: int)
    requires limit >= 0
    ensures var s := Run(steps, limit);
            |set t | t in s.calls && InLease(s, t)| <= limit
  {
    var s := Run(steps, limit);
    NeverOverLimit(steps, limit);
    var holders := set t | t in s.calls && InLease(s, t);
    forall t | t in holders ensures t in Visible(s.store, s.now) {
      HolderKeepsToken(steps, limit, t);
    }
    CountWithin(holders, Visible(s.store, s.now).Keys);
    assert |Visible(s.store, s.now)| == |Visible(s.store, s.now).Keys|;
  }

  lemma RunSnoc(steps: seq<Step>, step: Step, limit: int)
    ensures Run(steps + [step], limit) == Next(Run(steps, limit), step, limit)
  {
    assert (steps + [step])[..|steps|] == steps;
  }

  /** The lease condition is needed: once every holder has outlived its lease, the next caller gets a
      slot beside all of them, so more requests than the limit run. */
  lemma OutlivedLeaseExceeds(steps: seq<Step>, limit: int, t: Token)
    requires limit >= 1
    requires var s := Run(steps, limit);
             && t !in s.calls
             && forall i :: 0 <= i < |s.acquisitions| ==> s.acquisitions[i].at + LEASE_MS <= s.now
    ensures var before := Run(steps, limit);
            var after := Run(steps + [ReadClock(t)] + [Try(t)], limit);
            (set u | u in after.calls && after.calls[u].Holding?)
                == (set u | u in before.calls && before.calls[u].Holding?) + {t}
  {
    RunSnoc(steps, ReadClock(t), limit);
    RunSnoc(steps + [ReadClock(t)], Try(t), limit);
    NextAttemptSucceeds(steps + [ReadClock(t)], limit, t);
  }

  /** The grants that fell within one lease before this reading. */
  function RecentGrants(acquisitions: seq<Acquired>, read: nat): set<int> {
    set i | 0 <= i < |acquisitions| && read < acquisitions[i].at + LEASE_MS
  }

  /** The tokens an unexpired entry can belong to. */
  function TokensOf(acquisitions: seq<Acquired>, grants: set<int>): set<Token>
    requires forall i | i in grants :: 0 <= i < |acquisitions|
  {
    set i | i in grants :: acquisitions[i].token
  }

  lemma {:induction false} NoMoreTokens(acquisitions: seq<Acquired>, grants: set<int>)
    requires forall i | i in grants :: 0 <= i < |acquisitions|
    ensures |TokensOf(acquisitions, grants)| <= |grants|
    decreases |grants|
  {
    if i :| i in grants {
      NoMoreTokens(acquisitions, grants - {i});
      assert TokensOf(acquisitions, grants) == TokensOf(acquisitions, grants - {i}) + {acquisitions[i].token};
    } else {
      assert TokensOf(acquisitions, grants) == {};
    }
  }

  /** The visible entries younger than one lease at this reading. */
  function YoungAt(s: State, read: nat): set<Token> {
    set u | u in s.store.entries && s.now < s.store.expiresAt && read < s.store.entries[u] + LEASE_MS
  }

  /** An attempt gets the slot exactly if fewer visible entries than the limit are younger than one lease
      at its reading; it then holds the slot from that reading, and otherwise it may try again. */
  lemma AttemptIff(s: State, limit: int, t: Token)
    requires t in s.calls && s.calls[t].Armed?
    ensures var read, after := s.calls[t].read, Next(s, Try(t), limit);
            var fits := |YoungAt(s, read)| < limit;
            && after.calls == s.calls[t := if fits then Holding(read) else Armed(read)] && after.now == s.now
            && after.acquisitions == s.acquisitions + (if fits then [Acquired(t, s.now, read)] else [])
            && (fits ==> t in after.store.entries && after.store.entries[t] == read
                         && after.store.expiresAt == s.now + LEASE_MS)
  {
    var read := s.calls[t].read;
    var kept := Unexpired(Visible(s.store, s.now), read);
    assert YoungAt(s, read) == kept.Keys;
    assert |kept| == |kept.Keys|;
  }

  /** In every run an attempt gets the slot if fewer grants than the limit fell within one lease before its
      reading, whatever was released or not. */
  lemma RoomAfterFewGrants(steps: seq<Step>, limit: int, t: Token)
    requires var s := Run(steps, limit);
             && t in s.calls && s.calls[t].Armed?
             && |RecentGrants(s.acquisitions, s.calls[t].read)| < limit
    ensures Next(Run(steps, limit), Try(t), limit).calls[t].Holding?
  {
    Invariants(steps, limit);
    var s := Run(steps, limit);
    var read := s.calls[t].read;
    var kept := YoungAt(s, read);
    var grants := RecentGrants(s.acquisitions, read);
    forall u | u in kept ensures u in TokensOf(s.acquisitions, grants) {
      var i :| 0 <= i < |s.acquisitions| && Granted(s.acquisitions[i], u, s.store.entries[u]);
      assert i in grants;
    }
    CountWithin(kept, TokensOf(s.acquisitions, grants));
    NoMoreTokens(s.acquisitions, grants);
    AttemptIff(s, limit, t);
  }

  /** If nothing was granted during the lease before a caller read the clock, its attempt succeeds,
      even if no holder ever released. */
  lemma NextAttemptSucceeds(steps: seq<Step>, limit: int, t: Token)
    requires limit >= 1
    requires var s := Run(steps, limit);
             && t in s.calls && s.calls[t].Armed?
             && forall i :: 0 <= i < |s.acquisitions| ==> s.acquisitions[i].at + LEASE_MS <= s.calls[t].read
    ensures Next(Run(steps, limit), Try(t), limit).calls[t].Holding?
  {
    assert RecentGrants(Run(steps, limit).acquisitions, Run(steps, limit).calls[t].read) == {};
    RoomAfterFewGrants(steps, limit, t);
  }

  /** So in every run a caller that is still polling gets its slot after one quiet lease, whatever the callers
      before it failed to give back. */
  lemma QuietLeaseSucceeds(steps: seq<Step>, limit: int, t: Token)
    requires limit >= 1
    requires t in Run(steps, limit).calls ==> Run(steps, limit).calls[t].Armed?
    ensures var after := Run(steps + [Tick(LEASE_MS)] + [ReadClock(t)] + [Try(t)], limit);
            t in after.calls && after.calls[t] == Holding(Run(steps, limit).now + LEASE_MS)
  {
    Invariants(steps, limit);
    RunSnoc(steps, Tick(LEASE_MS), limit);
    RunSnoc(steps + [Tick(LEASE_MS)], ReadClock(t), limit);
    RunSnoc(steps + [Tick(LEASE_MS)] + [ReadClock(t)], Try(t), limit);
    hide Run;
    NextAttemptSucceeds(steps + [Tick(LEASE_MS)] + [ReadClock(t)], limit, t);
    AttemptIff(Run(steps + [Tick(LEASE_MS)] + [ReadClock(t)], limit), limit, t);
  }

  /** A caller that gives its slot back makes room at once: whoever tries next, having read the clock
      before, gets it, even if all slots were taken and even if the reply to the release is lost. */
  lemma ReleaseMakesRoom(steps: seq<Step>, limit: int, h: Token, t: Token, release: Step)
    requires limit >= 1 && (release == Release(h) || release == ReleaseFault(h, true))
    requires var s := Run(steps, limit); InLease(s, h) && t in s.calls && s.calls[t].Armed?
    ensures var after := Run(steps + [release] + [Try(t)], limit); t in after.calls && after.calls[t].Holding?
  {
    Invariants(steps, limit);
    RunSnoc(steps, release, limit);
    RunSnoc(steps + [release], Try(t), limit);
    hide Run;
    var s, left := Run(steps, limit), Run(steps + [release], limit);
    assert h in s.store.entries;
    assert |s.store.entries| == |s.store.entries.Keys|;
    CountWithin(YoungAt(left, left.calls[t].read), s.store.entries.Keys - {h});
    AttemptIff(left, limit, t);
  }

  /** A reply lost after the command took effect leaves the set as the command does; the caller of a lost
      acquisition gives up, and its entry stays until its lease is over. */
  lemma LostReplies(s: State, limit: int, t: Token)
    requires t in s.calls
    ensures s.calls[t].Armed? ==>
              var lost, tried := Next(s, TryFault(t, true), limit), Next(s, Try(t), limit);
              lost.store == tried.store && lost.acquisitions == tried.acquisitions && lost.calls[t] == Done
    ensures Next(s, ReleaseFault(t, true), limit) == Next(s, Release(t), limit)
    ensures Next(s, TryFault(t, false), limit).store == s.store
            && Next(s, ReleaseFault(t, false), limit).store == s.store
  {
  }
}
