/** The best-effort lock around a collection cycle: one key per (integration, stream), set with a
    token and a time to live, released only by compare-and-delete. */
module CycleLock {

  type Token = string

  datatype Lock = Free | Held(token: Token, until: int)

  predicate Live(lock: Lock, now: int) {
    lock.Held? && now < lock.until
  }

  /** SET key token NX EX ttl. */
  function AfterSet(lock: Lock, now: int, token: Token, ttl: nat): Lock {
    if Live(lock, now) then lock else Held(token, now + ttl)
  }

  /** The release script: delete the key only while it still holds the caller's token. */
  function AfterRelease(lock: Lock, now: int, token: Token): Lock {
    if Live(lock, now) && lock.token == token then Free else lock
  }

  class LockKey {
    var lock: Lock

    constructor ()
      ensures lock == Free
    {
      lock := Free;
    }

    method SetNxEx(now: int, token: Token, ttl: nat) returns (acquired: bool)
      modifies this
      ensures acquired <==> !Live(old(lock), now)
      ensures lock == AfterSet(old(lock), now, token, ttl)
      ensures acquired <==> old(lock) == Free || old(lock).until <= now
      ensures lock == if acquired then Held(token, now + ttl) else old(lock)
    {
      acquired := !Live(lock, now);
      if acquired {
        lock := Held(token, now + ttl);
      }
    }

    method ReleaseIfMine(now: int, token: Token) returns (deleted: bool)
      modifies this
      ensures deleted <==> Live(old(lock), now) && old(lock).token == token
      ensures lock == AfterRelease(old(lock), now, token)
      ensures deleted <==> old(lock).Held? && now < old(lock).until && old(lock).token == token
      ensures lock == if deleted then Free else old(lock)
    {
      deleted := false;
      if Live(lock, now) && lock.token == token {
        lock := Free;
        deleted := true;
      }
    }
  }

  /** A cycle in its body; `guarded` is false if it runs without the lock because Redis failed. */
  datatype InBody = InBody(guarded: bool, until: int)

  datatype State = State(now: int, lock: Lock, body: map<Token, InBody>, used: set<Token>)

  /** A fault may strike before or after the command took effect on the server. */
  datatype Step =
    | Tick(elapsed: nat)
    | Enter(token: Token, ttl: nat)
    | EnterFault(token: Token, ttl: nat, applied: bool)
    | Leave(token: Token)
    | LeaveFault(token: Token, applied: bool)

  /** One atomic step; tokens are fresh, so entering twice with one is not a step at all. */
  function Next(s: State, step: Step): State {
    match step
    case Tick(elapsed) => s.(now := s.now + elapsed)
    case Enter(token, ttl) =>
      if token in s.used then s
      else if Live(s.lock, s.now) then s.(used := s.used + {token})
      else s.(lock := AfterSet(s.lock, s.now, token, ttl), used := s.used + {token},
              body := s.body[token := InBody(true, s.now + ttl)])
    case EnterFault(token, ttl, applied) =>
      if token in s.used then s
      else s.(lock := if applied then AfterSet(s.lock, s.now, token, ttl) else s.lock,
              used := s.used + {token}, body := s.body[token := InBody(false, s.now)])
    case Leave(token) =>
      if token !in s.body then s
      else s.(lock := if s.body[token].guarded then AfterRelease(s.lock, s.now, token) else s.lock,
              body := s.body - {token})
    case LeaveFault(token, applied) =>
      if token !in s.body then s
      else s.(lock := if applied && s.body[token].guarded then AfterRelease(s.lock, s.now, token) else s.lock,
              body := s.body - {token})
  }

  function Run(steps: seq<Step>): State {
    if steps == [] then State(0, Free, map[], {}) else Next(Run(steps[..|steps| - 1]), steps[|steps| - 1])
  }

  /** A live lock disappears only when the cycle whose token it holds leaves: never is another
      cycle's lock deleted. */
  lemma OnlyTheOwnerReleases(s: State, step: Step)
    requires Live(s.lock, s.now) && Next(s, step).lock != s.lock
    ensures (step.Leave? || step.LeaveFault?) && step.token == s.lock.token && step.token in s.body
  {
  }

  /** A cycle entered through Redis and still within its time to live holds the lock. */
  ghost predicate HoldersLock(s: State) {
    && s.body.Keys <= s.used
    && (forall t | t in s.body && s.body[t].guarded && s.now < s.body[t].until :: s.lock == Held(t, s.body[t].until))
  }

  lemma {:induction false} HoldersLockAlways(steps: seq<Step>)
    ensures HoldersLock(Run(steps))
  {
    if steps != [] {
      HoldersLockAlways(steps[..|steps| - 1]);
    }
  }

  /** Mutual exclusion: whatever the interleaving of cycles, expiries and Redis faults, at most one
      cycle is in its body both under the lock and within its time to live. */
  lemma MutualExclusion(steps: seq<Step>, a: Token, b: Token)
    requires a in Run(steps).body && Run(steps).body[a].guarded && Run(steps).now < Run(steps).body[a].until
    requires b in Run(steps).body && Run(steps).body[b].guarded && Run(steps).now < Run(steps).body[b].until
    ensures a == b
  {
    HoldersLockAlways(steps);
  }

  lemma {:induction false} GuardedWithoutFaults(steps: seq<Step>)
    requires forall i :: 0 <= i < |steps| ==> !steps[i].EnterFault?
    ensures forall t | t in Run(steps).body :: Run(steps).body[t].guarded
  {
    if steps != [] {
      GuardedWithoutFaults(steps[..|steps| - 1]);
    }
  }

  /** So with no fault on entry and no cycle outliving its time to live, at most one is in its body. */
  lemma AtMostOneCycle(steps: seq<Step>)
    requires forall i :: 0 <= i < |steps| ==> !steps[i].EnterFault?
    requires forall t | t in Run(steps).body :: Run(steps).now < Run(steps).body[t].until
    ensures |Run(steps).body| <= 1
  {
    GuardedWithoutFaults(steps);
    var body := Run(steps).body;
    if body != map[] {
      var a :| a in body;
      forall b | b in body ensures b == a {
        MutualExclusion(steps, a, b);
      }
      assert body.Keys == {a};
      assert |body| == |body.Keys|;
    }
  }

  lemma RunSnoc(steps: seq<Step>, step: Step)
    ensures Run(steps + [step]) == Next(Run(steps), step)
  {
    assert (steps + [step])[..|steps|] == steps;
  }

  lemma TwoInBody(body: map<Token, InBody>, a: Token, b: Token)
    requires body.Keys == {a, b} && a != b
    ensures |body| == 2
  {
    assert |body| == |body.Keys|;
  }

  /** A cycle with a fresh token gets in exactly if no lock is held, or its time to live is over; it then
      holds the lock for its own time to live, and otherwise the lock and the bodies stay as they are. */
  lemma EntersIff(steps: seq<Step>, token: Token, ttl: nat)
    requires token !in Run(steps).used
    ensures var s, after := Run(steps), Run(steps + [Enter(token, ttl)]);
            && (token in after.body <==> s.lock == Free || s.lock.until <= s.now)
            && (token in after.body ==> after.body == s.body[token := InBody(true, s.now + ttl)]
                                        && after.lock == Held(token, s.now + ttl))
            && (token !in after.body ==> after.body == s.body && after.lock == s.lock)
            && after.now == s.now && after.used == s.used + {token}
  {
    HoldersLockAlways(steps);
    RunSnoc(steps, Enter(token, ttl));
    hide Run;
  }

  /** A cycle that leaves within its time to live frees the lock, whatever else went on: the next cycle
      with a fresh token is in its body at once. */
  lemma LeavingLetsTheNextIn(steps: seq<Step>, a: Token, b: Token, ttl: nat)
    requires var s := Run(steps);
             a in s.body && s.body[a].guarded && s.now < s.body[a].until && b !in s.used
    ensures var s, after := Run(steps), Run(steps + [Leave(a)] + [Enter(b, ttl)]);
            && after.body == (s.body - {a})[b := InBody(true, s.now + ttl)]
            && after.lock == Held(b, s.now + ttl)
  {
    HoldersLockAlways(steps);
    RunSnoc(steps, Leave(a));
    RunSnoc(steps + [Leave(a)], Enter(b, ttl));
    hide Run;
  }

  /** A cycle whose release is lost on the way to Redis keeps the lock from the others until its time to
      live is over, and no longer. */
  lemma LostReleaseBlocksUntilExpiry(steps: seq<Step>, a: Token, b: Token, elapsed: nat, ttl: nat)
    requires var s := Run(steps);
             a in s.body && s.body[a].guarded && s.now < s.body[a].until && b !in s.used
    ensures var s, after := Run(steps), Run(steps + [LeaveFault(a, false)] + [Tick(elapsed)] + [Enter(b, ttl)]);
            && (b in after.body <==> s.body[a].until <= s.now + elapsed)
            && after.body.Keys - {b} == s.body.Keys - {a}
  {
    HoldersLockAlways(steps);
    RunSnoc(steps, LeaveFault(a, false));
    RunSnoc(steps + [LeaveFault(a, false)], Tick(elapsed));
    RunSnoc(steps + [LeaveFault(a, false)] + [Tick(elapsed)], Enter(b, ttl));
    hide Run;
  }

  /** A cycle whose SET took effect but whose reply was lost runs without the lock and does not release it: even
      when it has left and nobody is in a body, the others stay out until that time to live is over. */
  lemma OrphanLockBlocks(steps: seq<Step>, a: Token, b: Token, ttl: nat, elapsed: nat)
    requires a != b && a !in Run(steps).used && b !in Run(steps).used
    requires Run(steps).lock == Free || Run(steps).lock.until <= Run(steps).now
    ensures var left := Run(steps + [EnterFault(a, ttl, true)] + [Leave(a)]);
            var after := Run(steps + [EnterFault(a, ttl, true)] + [Leave(a)] + [Tick(elapsed)] + [Enter(b, ttl)]);
            && left.body == Run(steps).body && left.lock == Held(a, Run(steps).now + ttl)
            && (b in after.body <==> ttl <= elapsed)
  {
    HoldersLockAlways(steps);
    RunSnoc(steps, EnterFault(a, ttl, true));
    RunSnoc(steps + [EnterFault(a, ttl, true)], Leave(a));
    RunSnoc(steps + [EnterFault(a, ttl, true)] + [Leave(a)], Tick(elapsed));
    RunSnoc(steps + [EnterFault(a, ttl, true)] + [Leave(a)] + [Tick(elapsed)], Enter(b, ttl));
    hide Run;
    assert Run(steps).body - {a} == Run(steps).body;
  }

  /** A reply lost after the command took effect leaves what the command leaves. */
  lemma LateFaultsTakeEffect(s: State, token: Token, ttl: nat)
    ensures Next(s, LeaveFault(token, true)) == Next(s, Leave(token))
    ensures token !in s.used ==> Next(s, EnterFault(token, ttl, true)).lock == Next(s, Enter(token, ttl)).lock
    ensures Next(s, EnterFault(token, ttl, false)).lock == s.lock && Next(s, LeaveFault(token, false)).lock == s.lock
  {
  }

  /** Whatever the run so far, once the lock has run out the next cycle runs beside those in their body. */
  lemma NextBesideOverrun(steps: seq<Step>, token: Token, ttl: nat)
    requires token !in Run(steps).used
    requires Run(steps).lock.Held? ==> Run(steps).lock.until <= Run(steps).now
    ensures Run(steps + [Enter(token, ttl)]).body.Keys == Run(steps).body.Keys + {token}
  {
    RunSnoc(steps, Enter(token, ttl));
  }

  /** And one that enters while Redis fails runs beside any other. */
  lemma FaultBesideAny(steps: seq<Step>, token: Token, ttl: nat, applied: bool)
    requires token !in Run(steps).used
    ensures Run(steps + [EnterFault(token, ttl, applied)]).body.Keys == Run(steps).body.Keys + {token}
  {
    RunSnoc(steps, EnterFault(token, ttl, applied));
  }

  lemma FirstEnters(ttl: nat)
    ensures var s := Run([] + [Enter("a", ttl)]);
            s.body.Keys == {"a"} && s.used == {"a"} && s.lock == Held("a", ttl) && s.now == 0
  {
    RunSnoc([], Enter("a", ttl));
  }

  /** So both conditions are needed. */
  lemma BothConditionsNeeded(ttl: nat)
    ensures |Run([] + [Enter("a", ttl)] + [Tick(ttl)] + [Enter("b", ttl)]).body| == 2
    ensures |Run([] + [Enter("a", ttl)] + [EnterFault("b", ttl, false)]).body| == 2
  {
    var one := [] + [Enter("a", ttl)];
    FirstEnters(ttl);
    RunSnoc(one, Tick(ttl));
    hide Run;
    NextBesideOverrun(one + [Tick(ttl)], "b", ttl);
    FaultBesideAny(one, "b", ttl, false);
    TwoInBody(Run(one + [Tick(ttl)] + [Enter("b", ttl)]).body, "a", "b");
    TwoInBody(Run(one + [EnterFault("b", ttl, false)]).body, "a", "b");
  }
}
