/** Any number of processes using one breaker, interleaved at Redis commands, with faults before or
    after a command took effect. Everything the keys hold is a function of the log of what happened. */
module BreakerRuns {
  import opened Options
  import opened Breaker

  type Proc = nat

  /** What happened, in order. `Opened` names the log position of the failure that caused it;
      `Probed` is the probe key being set, granting a probe unless the reply was lost. */
  datatype Event =
    | Failed(at: int)
    | Healed(at: int)
    | Opened(at: int, cause: nat)
    | Probed(at: int)
    | Denied(at: int)
    | Passed(at: int)

  /** Where a process is between two commands of one operation. */
  datatype Pc = SawOpen | Counted(cause: nat)

  datatype State = State(now: int, keys: Keys, pcs: map<Proc, Pc>, log: seq<Event>)

  datatype Step =
    | Tick(elapsed: nat)
    | Exists(p: Proc)
    | TryProbe(p: Proc)
    | CheckFault(p: Proc, applied: bool)
    | Heal
    | Fail(p: Proc)
    | FailReplyLost
    | SetOpen(p: Proc)
    | SetOpenFault(p: Proc)

  function Logged(s: State, e: Event): State {
    s.(log := s.log + [e])
  }

  function CountFailure(s: State, cfg: Config): State {
    Logged(s.(keys := Incremented(s.keys, s.now, cfg.window)), Failed(s.now))
  }

  /** One atomic step; a step whose process is not at that point changes nothing. */
  function Next(s: State, step: Step, cfg: Config): State {
    match step
    case Tick(elapsed) => s.(now := s.now + elapsed)
    case Exists(p) =>
      if p in s.pcs then s
      else if LiveAt(s.keys.open, s.now) then s.(pcs := s.pcs[p := SawOpen])
      else Logged(s, Passed(s.now))
    case TryProbe(p) =>
      if p !in s.pcs || !s.pcs[p].SawOpen? then s
      else
        var idle := s.(pcs := s.pcs - {p});
        if LiveAt(s.keys.probe, s.now) then Logged(idle, Denied(s.now))
        else Logged(idle.(keys := ProbeSet(s.keys, s.now, cfg.probeTtl)), Probed(s.now))
    case CheckFault(p, applied) =>
      if p !in s.pcs then Logged(s, Passed(s.now))
      else if !s.pcs[p].SawOpen? then s
      else
        var idle := s.(pcs := s.pcs - {p});
        if applied && !LiveAt(s.keys.probe, s.now)
        then Logged(idle.(keys := ProbeSet(s.keys, s.now, cfg.probeTtl)), Probed(s.now))
        else Logged(idle, Passed(s.now))
    case Heal => Logged(s.(keys := NO_KEYS), Healed(s.now))
    case Fail(p) =>
      if p in s.pcs then s
      else
        var counted := CountFailure(s, cfg);
        if counted.keys.fail.value.count >= cfg.threshold
        then counted.(pcs := s.pcs[p := Counted(|s.log|)]) else counted
    case FailReplyLost => CountFailure(s, cfg)
    case SetOpen(p) =>
      if p !in s.pcs || !s.pcs[p].Counted? then s
      else Logged(s.(keys := s.keys.(open := Some(s.now + cfg.cooldown)), pcs := s.pcs - {p}),
                  Opened(s.now, s.pcs[p].cause))
    case SetOpenFault(p) =>
      if p !in s.pcs || !s.pcs[p].Counted? then s else s.(pcs := s.pcs - {p})
  }

  function Run(steps: seq<Step>, cfg: Config): State {
    if steps == [] then State(0, NO_KEYS, map[], [])
    else Next(Run(steps[..|steps| - 1], cfg), steps[|steps| - 1], cfg)
  }

  /** Uninterrupted, the steps of an operation amount to what the methods of the keys do. */
  lemma UninterruptedOperations(s: State, p: Proc, cfg: Config)
    requires p !in s.pcs
    ensures var checked := Next(Next(s, Exists(p), cfg), TryProbe(p), cfg);
            && checked.keys == (if LiveAt(s.keys.open, s.now) then ProbeSet(s.keys, s.now, cfg.probeTtl) else s.keys)
            && |checked.log| == |s.log| + 1
            && (checked.log[|s.log|].Denied? <==> LiveAt(s.keys.open, s.now) && LiveAt(s.keys.probe, s.now))
    ensures var failed := Next(Next(s, Fail(p), cfg), SetOpen(p), cfg);
            var counted := Incremented(s.keys, s.now, cfg.window);
            failed.keys == if counted.fail.value.count >= cfg.threshold
                           then counted.(open := Some(s.now + cfg.cooldown)) else counted
  {
  }

  /** A fault never denies a send and never blocks its process: a check that hits one passes, or sets the
      probe key and loses the reply; a failure whose reply is lost is counted but opens nothing; and a
      setting of the open key that fails leaves the keys. */
  lemma FaultsLetThrough(s: State, p: Proc, applied: bool, cfg: Config)
    ensures var checked, sets := Next(s, CheckFault(p, applied), cfg),
                applied && p in s.pcs && !LiveAt(s.keys.probe, s.now);
            p !in s.pcs || s.pcs[p].SawOpen? ==>
              && p !in checked.pcs
              && checked.log == s.log + [if sets then Probed(s.now) else Passed(s.now)]
              && checked.keys == if sets then s.keys.(probe := Some(s.now + cfg.probeTtl)) else s.keys
    ensures var counted := Next(s, FailReplyLost, cfg);
            && counted.pcs == s.pcs && counted.log == s.log + [Failed(s.now)]
            && counted.keys == Incremented(s.keys, s.now, cfg.window)
    ensures p in s.pcs && s.pcs[p].Counted? ==> Next(s, SetOpenFault(p), cfg) == s.(pcs := s.pcs - {p})
  {
  }

  // ---- Reading the log ----

  /** Positions of the failures since the last effective success. */
  function Failures(log: seq<Event>): (r: seq<nat>)
    ensures forall i :: 0 <= i < |r| ==> r[i] < |log| && log[r[i]].Failed?
  {
    if log == [] then []
    else
      var init := log[..|log| - 1];
      match log[|log| - 1]
      case Healed(_) => []
      case Failed(_) => Failures(init) + [|log| - 1]
      case _ => Failures(init)
  }

  ghost predicate Positions(log: seq<Event>, fs: seq<nat>) {
    forall i :: 0 <= i < |fs| ==> fs[i] < |log|
  }

  /** How many of the latest failures follow each other within less than the window. */
  function Streak(log: seq<Event>, fs: seq<nat>, window: nat): nat
    requires Positions(log, fs)
  {
    var n := |fs|;
    if n == 0 then 0
    else if n >= 2 && log[fs[n - 1]].at - log[fs[n - 2]].at < window then Streak(log, fs[..n - 1], window) + 1
    else 1
  }

  /** When the probe key was last set since the last effective success. */
  function LastProbe(log: seq<Event>): Option<int> {
    if log == [] then None
    else
      match log[|log| - 1]
      case Healed(_) => None
      case Probed(at) => Some(at)
      case _ => LastProbe(log[..|log| - 1])
  }

  /** The position of the last opening since the last effective success. */
  function LastOpened(log: seq<Event>): (r: Option<nat>)
    ensures r.Some? ==> r.value < |log| && log[r.value].Opened?
  {
    if log == [] then None
    else
      match log[|log| - 1]
      case Healed(_) => None
      case Opened(_, _) => Some(|log| - 1)
      case _ => LastOpened(log[..|log| - 1])
  }

  ghost predicate NoHealing(log: seq<Event>, lo: nat, hi: nat) {
    forall i :: lo <= i < hi && i < |log| ==> !log[i].Healed?
  }

  // ---- The invariant: the keys are what the log says ----

  ghost predicate Timed(s: State) {
    && (forall i :: 0 <= i < |s.log| ==> s.log[i].at <= s.now)
    && (forall i, j :: 0 <= i < j < |s.log| ==> s.log[i].at <= s.log[j].at)
  }

  function FailOf(log: seq<Event>, cfg: Config): Option<Counter> {
    var fs := Failures(log);
    if fs == [] then None else Some(Counter(Streak(log, fs, cfg.window), log[fs[|fs| - 1]].at + cfg.window))
  }

  function OpenOf(log: seq<Event>, cfg: Config): Option<int> {
    if LastOpened(log).None? then None else Some(log[LastOpened(log).value].at + cfg.cooldown)
  }

  function ProbeOf(log: seq<Event>, cfg: Config): Option<int> {
    if LastProbe(log).None? then None else Some(LastProbe(log).value + cfg.probeTtl)
  }

  function KeysOf(log: seq<Event>, cfg: Config): Keys {
    Keys(FailOf(log, cfg), OpenOf(log, cfg), ProbeOf(log, cfg))
  }

  /** The failure at this position completed a streak that reaches the threshold. */
  ghost predicate IsCause(log: seq<Event>, c: nat, cfg: Config) {
    && c < |log| && log[c].Failed?
    && Streak(log[..c + 1], Failures(log[..c + 1]), cfg.window) >= cfg.threshold
  }

  ghost predicate Caused(s: State, cfg: Config) {
    && (forall i :: 0 <= i < |s.log| && s.log[i].Opened? ==> s.log[i].cause < i && IsCause(s.log, s.log[i].cause, cfg))
    && (forall p | p in s.pcs && s.pcs[p].Counted? :: s.pcs[p].cause < |s.log| && IsCause(s.log, s.pcs[p].cause, cfg))
  }

  ghost predicate ProbesSpaced(log: seq<Event>, cfg: Config) {
    forall j :: 0 <= j < |log| ==>
      && (log[j].Probed? && LastProbe(log[..j]).Some? ==> log[j].at >= LastProbe(log[..j]).value + cfg.probeTtl)
      && (log[j].Denied? ==> LastProbe(log[..j]).Some? && log[j].at < LastProbe(log[..j]).value + cfg.probeTtl)
  }

  lemma {:induction false} StreakIgnoresLater(log: seq<Event>, e: Event, fs: seq<nat>, window: nat)
    requires Positions(log, fs)
    ensures Positions(log + [e], fs) && Streak(log + [e], fs, window) == Streak(log, fs, window)
    decreases |fs|
  {
    if |fs| > 0 {
      StreakIgnoresLater(log, e, fs[..|fs| - 1], window);
    }
  }

  lemma Append(log: seq<Event>, e: Event)
    ensures (log + [e])[..|log|] == log
    ensures Failures(log + [e]) == if e.Healed? then [] else if e.Failed? then Failures(log) + [|log|]
        else Failures(log)
    ensures LastProbe(log + [e]) == if e.Healed? then None else if e.Probed? then Some(e.at) else LastProbe(log)
    ensures LastOpened(log + [e]) == if e.Healed? then None else if e.Opened? then Some(|log|) else LastOpened(log)
  {
    assert (log + [e])[..|log|] == log;
  }

  lemma LoggedSpaced(log: seq<Event>, e: Event, cfg: Config)
    requires ProbesSpaced(log, cfg)
    requires e.Probed? && LastProbe(log).Some? ==> e.at >= LastProbe(log).value + cfg.probeTtl
    requires e.Denied? ==> LastProbe(log).Some? && e.at < LastProbe(log).value + cfg.probeTtl
    ensures ProbesSpaced(log + [e], cfg)
  {
    forall j | 0 <= j < |log| + 1 ensures (log + [e])[..j] == log[..j] {
    }
    assert log[..|log|] == log;
  }

  lemma LoggedCaused(log: seq<Event>, e: Event, c: nat, cfg: Config)
    requires IsCause(log, c, cfg)
    ensures IsCause(log + [e], c, cfg)
  {
    assert (log + [e])[..c + 1] == log[..c + 1];
  }

  lemma NextTimed(s: State, step: Step, cfg: Config)
    requires Timed(s)
    ensures Timed(Next(s, step, cfg))
  {
  }

  lemma StreakAppend(log: seq<Event>, fs: seq<nat>, e: Event, window: nat)
    requires Positions(log, fs)
    ensures Positions(log + [e], fs + [|log|])
    ensures Streak(log + [e], fs + [|log|], window) ==
            if fs != [] && e.at - log[fs[|fs| - 1]].at < window then Streak(log, fs, window) + 1 else 1
  {
    assert (fs + [|log|])[..|fs|] == fs;
    StreakIgnoresLater(log, e, fs, window);
  }

  lemma FailOfAppend(log: seq<Event>, at: int, cfg: Config)
    ensures Incremented(KeysOf(log, cfg), at, cfg.window).fail == FailOf(log + [Failed(at)], cfg)
  {
    hide Streak;
    hide Failures;
    hide OpenOf;
    hide ProbeOf;
    hide LastOpened;
    hide LastProbe;
    Append(log, Failed(at));
    StreakAppend(log, Failures(log), Failed(at), cfg.window);
  }

  lemma FailOfKept(log: seq<Event>, e: Event, cfg: Config)
    requires !e.Failed? && !e.Healed?
    ensures FailOf(log + [e], cfg) == FailOf(log, cfg)
  {
    Append(log, e);
    StreakIgnoresLater(log, e, Failures(log), cfg.window);
    hide Failures;
    hide Streak;
    hide LastProbe;
    hide LastOpened;
    var fs := Failures(log);
    assert fs != [] ==> (log + [e])[fs[|fs| - 1]] == log[fs[|fs| - 1]];
  }

  lemma OpenOfAppend(log: seq<Event>, e: Event, cfg: Config)
    ensures OpenOf(log + [e], cfg) == if e.Healed? then None else if e.Opened? then Some(e.at + cfg.cooldown)
        else OpenOf(log, cfg)
    ensures ProbeOf(log + [e], cfg) == if e.Healed? then None else if e.Probed? then Some(e.at + cfg.probeTtl)
        else ProbeOf(log, cfg)
    ensures e.Healed? ==> FailOf(log + [e], cfg) == None
  {
    Append(log, e);
  }

  /** What one logged event does to the keys. */
  lemma KeysOfAppend(log: seq<Event>, e: Event, cfg: Config)
    ensures KeysOf(log + [e], cfg) ==
            match e
            case Failed(at) => Incremented(KeysOf(log, cfg), at, cfg.window)
            case Healed(_) => NO_KEYS
            case Opened(at, _) => KeysOf(log, cfg).(open := Some(at + cfg.cooldown))
            case Probed(at) => KeysOf(log, cfg).(probe := Some(at + cfg.probeTtl))
            case _ => KeysOf(log, cfg)
  {
    hide FailOf;
    hide OpenOf;
    hide ProbeOf;
    OpenOfAppend(log, e, cfg);
    if e.Failed? {
      FailOfAppend(log, e.at, cfg);
    } else if !e.Healed? {
      FailOfKept(log, e, cfg);
    }
  }

  lemma NextKeys(s: State, step: Step, cfg: Config)
    requires s.keys == KeysOf(s.log, cfg)
    ensures Next(s, step, cfg).keys == KeysOf(Next(s, step, cfg).log, cfg)
  {
    hide KeysOf;
    var after := Next(s, step, cfg);
    if after.log != s.log {
      KeysOfAppend(s.log, after.log[|s.log|], cfg);
    }
  }

  lemma NextSpaced(s: State, step: Step, cfg: Config)
    requires s.keys.probe == ProbeOf(s.log, cfg) && ProbesSpaced(s.log, cfg)
    ensures ProbesSpaced(Next(s, step, cfg).log, cfg)
  {
    hide ProbesSpaced;
    var after := Next(s, step, cfg);
    if after.log != s.log {
      LoggedSpaced(s.log, after.log[|s.log|], cfg);
    }
  }

  /** A failure whose count reaches the threshold is a cause. */
  lemma CountedIsCause(log: seq<Event>, at: int, cfg: Config)
    requires Incremented(KeysOf(log, cfg), at, cfg.window).fail.value.count >= cfg.threshold
    ensures IsCause(log + [Failed(at)], |log|, cfg)
  {
    FailOfAppend(log, at, cfg);
    assert (log + [Failed(at)])[..|log| + 1] == log + [Failed(at)];
    Append(log, Failed(at));
  }

  lemma NextCaused(s: State, step: Step, cfg: Config)
    requires s.keys == KeysOf(s.log, cfg) && Caused(s, cfg)
    ensures Caused(Next(s, step, cfg), cfg)
  {
    hide IsCause;
    hide KeysOf;
    var after := Next(s, step, cfg);
    if after.log != s.log {
      var e := after.log[|s.log|];
      forall c | IsCause(s.log, c, cfg) ensures IsCause(s.log + [e], c, cfg) {
        LoggedCaused(s.log, e, c, cfg);
      }
      if step.Fail? && Incremented(s.keys, s.now, cfg.window).fail.value.count >= cfg.threshold {
        CountedIsCause(s.log, s.now, cfg);
      }
    }
  }

  ghost predicate Invariant(s: State, cfg: Config) {
    Timed(s) && s.keys == KeysOf(s.log, cfg) && Caused(s, cfg) && ProbesSpaced(s.log, cfg)
  }

  lemma {:induction false} Invariants(steps: seq<Step>, cfg: Config)
    ensures Invariant(Run(steps, cfg), cfg)
  {
    if steps != [] {
      var init, step := steps[..|steps| - 1], steps[|steps| - 1];
      Invariants(init, cfg);
      var s := Run(init, cfg);
      NextTimed(s, step, cfg);
      NextKeys(s, step, cfg);
      NextCaused(s, step, cfg);
      NextSpaced(s, step, cfg);
    }
  }

  // ---- What follows for every run ----

  lemma {:induction false} LastProbeSince(log: seq<Event>, i: nat)
    requires i < |log| && log[i].Probed? && NoHealing(log, i, |log|)
    requires forall a, b :: 0 <= a < b < |log| ==> log[a].at <= log[b].at
    ensures LastProbe(log).Some? && LastProbe(log).value >= log[i].at
    decreases |log|
  {
    if i < |log| - 1 {
      LastProbeSince(log[..|log| - 1], i);
    }
  }

  lemma {:induction false} LastProbeFound(log: seq<Event>) returns (i: nat)
    requires LastProbe(log).Some?
    ensures i < |log| && log[i] == Probed(LastProbe(log).value) && NoHealing(log, i, |log|)
  {
    if log[|log| - 1].Probed? {
      i := |log| - 1;
    } else {
      i := LastProbeFound(log[..|log| - 1]);
    }
  }

  /** Two settings of the probe key with no effective success between them are at least the probe
      time to live apart, whatever the interleaving: one probe per open window. */
  lemma ProbeSpacing(steps: seq<Step>, cfg: Config, i: nat, j: nat)
    requires i < j < |Run(steps, cfg).log| && NoHealing(Run(steps, cfg).log, i, j)
    requires Run(steps, cfg).log[i].Probed? && Run(steps, cfg).log[j].Probed?
    ensures Run(steps, cfg).log[j].at - Run(steps, cfg).log[i].at >= cfg.probeTtl
  {
    Invariants(steps, cfg);
    LastProbeSince(Run(steps, cfg).log[..j], i);
  }

  /** Every denial has a probe within the preceding probe time to live, with no success since. */
  lemma DenialHasProbe(steps: seq<Step>, cfg: Config, j: nat) returns (i: nat)
    requires j < |Run(steps, cfg).log| && Run(steps, cfg).log[j].Denied?
    ensures i < j && Run(steps, cfg).log[i].Probed? && NoHealing(Run(steps, cfg).log, i, j)
    ensures Run(steps, cfg).log[j].at - cfg.probeTtl < Run(steps, cfg).log[i].at <= Run(steps, cfg).log[j].at
  {
    Invariants(steps, cfg);
    var log := Run(steps, cfg).log;
    i := LastProbeFound(log[..j]);
    assert log[..j][i] == log[i];
    forall k | i <= k < j ensures !log[k].Healed? {
      assert log[..j][k] == log[k];
    }
  }

  /** A Redis fault never denies: only an answered SET on a live probe key does. */
  lemma OnlyAnsweredProbeDenies(s: State, step: Step, cfg: Config)
    requires Next(s, step, cfg).log != s.log && Next(s, step, cfg).log[|s.log|].Denied?
    ensures step.TryProbe? && LiveAt(s.keys.probe, s.now)
  {
  }

  lemma {:induction false} LastOpenedSince(log: seq<Event>)
    requires LastOpened(log).Some?
    ensures NoHealing(log, LastOpened(log).value, |log|)
    ensures forall i :: LastOpened(log).value < i < |log| ==> !log[i].Opened?
  {
    if !log[|log| - 1].Opened? {
      LastOpenedSince(log[..|log| - 1]);
    }
  }

  lemma {:induction false} FailuresGrow(log: seq<Event>, n: nat)
    requires n <= |log| && NoHealing(log, n, |log|)
    ensures Failures(log[..n]) <= Failures(log)
    decreases |log|
  {
    if n < |log| {
      var init := log[..|log| - 1];
      assert init[..n] == log[..n];
      FailuresGrow(init, n);
    } else {
      assert log[..n] == log;
    }
  }

  lemma {:induction false} FailuresAreRecent(log: seq<Event>, f: nat)
    requires f in Failures(log)
    ensures f < |log| && NoHealing(log, f, |log|)
  {
    if f != |log| - 1 {
      FailuresAreRecent(log[..|log| - 1], f);
    }
  }

  /** A cause lies among the failures since the last success, together with its whole streak, if and
      only if no success came after it. */
  lemma CauseIsRecent(log: seq<Event>, c: nat)
    requires c < |log| && log[c].Failed?
    ensures NoHealing(log, c, |log|) <==> c in Failures(log)
    ensures NoHealing(log, c, |log|) ==> Failures(log[..c + 1]) <= Failures(log)
  {
    FailureRecorded(log, c);
    hide Failures;
    if NoHealing(log, c, |log|) {
      FailuresGrow(log, c + 1);
      InPrefix(c, Failures(log[..c + 1]), Failures(log));
    }
    if c in Failures(log) {
      FailuresAreRecent(log, c);
    }
  }

  lemma InPrefix(x: nat, short: seq<nat>, long: seq<nat>)
    requires x in short && short <= long
    ensures x in long
  {
  }

  lemma FailureRecorded(log: seq<Event>, c: nat)
    requires c < |log| && log[c].Failed?
    ensures c in Failures(log[..c + 1])
  {
    assert log[..c + 1][..c] == log[..c];
  }

  /** Since the last effective success some failure completed a streak that reaches the threshold. */
  ghost predicate CauseOnRecord(log: seq<Event>, cfg: Config) {
    exists f :: f in Failures(log) && IsCause(log, f, cfg)
  }

  /** A failure after position `c` that no success followed and that completed such a streak. */
  ghost predicate LaterCause(log: seq<Event>, c: nat, cfg: Config) {
    exists f :: c < f < |log| && IsCause(log, f, cfg) && NoHealing(log, f, |log|)
  }

  lemma CauseOnRecordIff(log: seq<Event>, c: nat, cfg: Config)
    requires c < |log| && IsCause(log, c, cfg)
    ensures CauseOnRecord(log, cfg) <==> NoHealing(log, c, |log|) || LaterCause(log, c, cfg)
  {
    hide IsCause;
    hide Failures;
    if f :| f in Failures(log) && IsCause(log, f, cfg) {
      FailuresAreRecent(log, f);
    }
    assert log[c].Failed? by {
      CauseFailed(log, c, cfg);
    }
    CauseIsRecent(log, c);
    if f :| c < f < |log| && IsCause(log, f, cfg) && NoHealing(log, f, |log|) {
      CauseFailed(log, f, cfg);
      CauseIsRecent(log, f);
    }
  }

  lemma CauseFailed(log: seq<Event>, c: nat, cfg: Config)
    requires IsCause(log, c, cfg)
    ensures c < |log| && log[c].Failed?
  {
  }

  /** While the open key is live: it was set less than a cooldown ago, with no success since, on
      behalf of a failure that completed a streak of at least `threshold` failures, consecutive ones
      less than the window apart. Such a streak is on record since the last effective success if and
      only if no success came between that failure's count and the setting of the key, or another
      failure since reached the threshold too. */
  lemma OpensOnlyForCause(steps: seq<Step>, cfg: Config) returns (i: nat, c: nat)
    requires LiveAt(Run(steps, cfg).keys.open, Run(steps, cfg).now)
    ensures var s := Run(steps, cfg);
            && c < i < |s.log| && s.log[i] == Opened(s.log[i].at, c) && NoHealing(s.log, i, |s.log|)
            && s.now - cfg.cooldown < s.log[i].at <= s.now
            && IsCause(s.log, c, cfg)
            && (CauseOnRecord(s.log, cfg) <==> NoHealing(s.log, c, i) || LaterCause(s.log, c, cfg))
            && (NoHealing(s.log, c, i) ==> c in Failures(s.log) && Failures(s.log[..c + 1]) <= Failures(s.log))
  {
    Invariants(steps, cfg);
    var s := Run(steps, cfg);
    hide Run;
    i := LastOpened(s.log).value;
    c := s.log[i].cause;
    LastOpenedSince(s.log);
    CauseIsRecent(s.log, c);
    CauseOnRecordIff(s.log, c, cfg);
    hide IsCause;
    hide CauseOnRecord;
    hide LaterCause;
    assert NoHealing(s.log, c, |s.log|) <==> NoHealing(s.log, c, i);
  }

  /** No success ever falls between the count of a failure and the setting of the key it calls for. */
  ghost predicate NoSuccessInBetween(steps: seq<Step>, cfg: Config) {
    forall k :: 0 <= k < |steps| && steps[k].Heal? ==>
      forall p | p in Run(steps[..k], cfg).pcs :: !Run(steps[..k], cfg).pcs[p].Counted?
  }

  ghost predicate Undisturbed(s: State) {
    && (forall p | p in s.pcs && s.pcs[p].Counted? :: NoHealing(s.log, s.pcs[p].cause, |s.log|))
    && (forall i :: 0 <= i < |s.log| && s.log[i].Opened? ==> NoHealing(s.log, s.log[i].cause, i))
  }

  lemma NextUndisturbed(s: State, step: Step, cfg: Config)
    requires Undisturbed(s) && (step.Heal? ==> forall p | p in s.pcs :: !s.pcs[p].Counted?)
    ensures Undisturbed(Next(s, step, cfg))
  {
    hide Incremented;
    hide ProbeSet;
    var after := Next(s, step, cfg);
    forall i | 0 <= i < |after.log| && after.log[i].Opened? ensures NoHealing(after.log, after.log[i].cause, i) {
      if i < |s.log| {
        assert after.log[i] == s.log[i];
      } else {
        assert step.SetOpen? && after.log[i].cause == s.pcs[step.p].cause;
      }
    }
  }

  lemma {:induction false} UndisturbedAlways(steps: seq<Step>, cfg: Config)
    requires NoSuccessInBetween(steps, cfg)
    ensures Undisturbed(Run(steps, cfg))
  {
    if steps != [] {
      var init := steps[..|steps| - 1];
      assert steps[..|steps| - 1] == init;
      forall k | 0 <= k < |init| ensures init[..k] == steps[..k] && init[k] == steps[k] {}
      UndisturbedAlways(init, cfg);
      NextUndisturbed(Run(init, cfg), steps[|steps| - 1], cfg);
    }
  }

  /** Then, in every state of the run, an open breaker has a sufficient streak on record since the last
      success. */
  lemma CauseAlwaysOnRecord(steps: seq<Step>, cfg: Config)
    requires NoSuccessInBetween(steps, cfg) && LiveAt(Run(steps, cfg).keys.open, Run(steps, cfg).now)
    ensures CauseOnRecord(Run(steps, cfg).log, cfg)
  {
    UndisturbedAlways(steps, cfg);
    var i, c := OpensOnlyForCause(steps, cfg);
  }

  /** Whatever came before, a success between the count and the setting leaves the breaker open with
      no failure on record. */
  lemma HealedThenOpened(s: State, p: Proc, cfg: Config)
    requires p in s.pcs && s.pcs[p].Counted? && cfg.cooldown > 0
    ensures var after := Next(Next(s, Heal, cfg), SetOpen(p), cfg);
            LiveAt(after.keys.open, after.now) && Failures(after.log) == []
  {
    var healed := Next(s, Heal, cfg);
    Append(s.log, Healed(s.now));
    Append(healed.log, Opened(s.now, s.pcs[p].cause));
  }

  /** The condition of OpensOnlyForCause can fail. */
  lemma OpenWithoutCause(cfg: Config)
    requires cfg.threshold == 1 && cfg.cooldown > 0
    ensures LiveAt(Run([Fail(0), Heal, SetOpen(0)], cfg).keys.open, Run([Fail(0), Heal, SetOpen(0)], cfg).now)
    ensures Failures(Run([Fail(0), Heal, SetOpen(0)], cfg).log) == []
  {
    RunThree(Fail(0), Heal, SetOpen(0), cfg);
    hide Run;
    HealedThenOpened(Next(State(0, NO_KEYS, map[], []), Fail(0), cfg), 0, cfg);
  }

  lemma RunSnoc(steps: seq<Step>, step: Step, cfg: Config)
    ensures Run(steps + [step], cfg) == Next(Run(steps, cfg), step, cfg)
  {
    assert (steps + [step])[..|steps|] == steps;
  }

  /** The other way to be right: the success came in between, but a later failure reached the threshold. */
  lemma OpenForLaterCause(cfg: Config)
    requires cfg.threshold == 1 && cfg.cooldown > 0
    ensures var s := Run([] + [Fail(0)] + [Heal] + [Fail(1)] + [SetOpen(0)], cfg);
            && LiveAt(s.keys.open, s.now) && s.log == [Failed(0), Healed(0), Failed(0), Opened(0, 0)]
            && !NoHealing(s.log, 0, 3) && Failures(s.log) == [2]
  {
    var two := [] + [Fail(0)] + [Heal];
    RunSnoc([], Fail(0), cfg);
    RunSnoc([Fail(0)], Heal, cfg);
    RunSnoc(two, Fail(1), cfg);
    RunSnoc(two + [Fail(1)], SetOpen(0), cfg);
    assert [] + [Fail(0)] == [Fail(0)];
    hide Run;
    var s0 := State(0, NO_KEYS, map[], []);
    var s3 := Next(Next(Next(s0, Fail(0), cfg), Heal, cfg), Fail(1), cfg);
    assert s3.log == [Failed(0), Healed(0), Failed(0)];
    FailuresOfExample();
  }

  lemma FailuresOfExample()
    ensures Failures([Failed(0), Healed(0), Failed(0), Opened(0, 0)]) == [2]
  {
    Append([Failed(0)], Healed(0));
    assert [Failed(0)] + [Healed(0)] == [Failed(0), Healed(0)];
    Append([Failed(0), Healed(0)], Failed(0));
    assert [Failed(0), Healed(0)] + [Failed(0)] == [Failed(0), Healed(0), Failed(0)];
    Append([Failed(0), Healed(0), Failed(0)], Opened(0, 0));
    assert [Failed(0), Healed(0), Failed(0)] + [Opened(0, 0)] == [Failed(0), Healed(0), Failed(0), Opened(0, 0)];
  }

  lemma RunThree(a: Step, b: Step, c: Step, cfg: Config)
    ensures Run([a, b, c], cfg) == Next(Next(Next(State(0, NO_KEYS, map[], []), a, cfg), b, cfg), c, cfg)
  {
    hide Next;
    assert [a, b, c][..2] == [a, b] && [a, b][..1] == [a] && [a][..0] == [];
    assert Run([a], cfg) == Next(Run([], cfg), a, cfg);
    assert Run([a, b], cfg) == Next(Run([a], cfg), b, cfg);
  }

  lemma {:induction false} LastOpenedCovers(log: seq<Event>, i: nat)
    requires i < |log| && log[i].Opened? && NoHealing(log, i, |log|)
    ensures LastOpened(log).Some? && LastOpened(log).value >= i
    decreases |log|
  {
    if i < |log| - 1 {
      LastOpenedCovers(log[..|log| - 1], i);
    }
  }

  /** The key was last set a cooldown ago or more, counting from the last effective success. */
  ghost predicate CooledDown(s: State, cfg: Config) {
    forall i :: 0 <= i < |s.log| && s.log[i].Opened? && NoHealing(s.log, i, |s.log|) ==>
        s.log[i].at + cfg.cooldown <= s.now
  }

  /** Recovery: a check passes without a probe if and only if a cooldown has passed since the open key
      was last set, or a success came after it. */
  lemma RecoversIff(steps: seq<Step>, cfg: Config, p: Proc)
    requires p !in Run(steps, cfg).pcs
    ensures var s := Run(steps, cfg);
            Next(s, Exists(p), cfg) == Logged(s, Passed(s.now)) <==> CooledDown(s, cfg)
  {
    Invariants(steps, cfg);
    var s := Run(steps, cfg);
    hide Run;
    hide FailOf;
    hide ProbeOf;
    hide Caused;
    hide ProbesSpaced;
    assert Next(s, Exists(p), cfg).log != s.log <==> !LiveAt(s.keys.open, s.now);
    if LastOpened(s.log).Some? {
      LastOpenedSince(s.log);
    }
    forall i | 0 <= i < |s.log| && s.log[i].Opened? && NoHealing(s.log, i, |s.log|)
      ensures LastOpened(s.log).Some? && s.log[i].at <= s.log[LastOpened(s.log).value].at
    {
      LastOpenedCovers(s.log, i);
    }
  }

  /** Every key was set at the instant of its failure, and no failure is younger than a cooldown. */
  ghost predicate QuietForCooldown(s: State, cfg: Config) {
    && (forall i :: 0 <= i < |s.log| && s.log[i].Failed? ==> s.log[i].at + cfg.cooldown <= s.now)
    && (forall i :: 0 <= i < |s.log| && s.log[i].Opened? && s.log[i].cause < i ==>
        s.log[i].at == s.log[s.log[i].cause].at)
  }

  lemma QuietState(s: State, cfg: Config)
    requires Caused(s, cfg) && QuietForCooldown(s, cfg)
    ensures CooledDown(s, cfg)
  {
    forall i | 0 <= i < |s.log| && s.log[i].Opened? ensures s.log[i].at + cfg.cooldown <= s.now {
      assert IsCause(s.log, s.log[i].cause, cfg);
    }
  }

  /** If every key is set at the instant of its failure, a cooldown without failures suffices. */
  lemma QuietCooldownRecovers(steps: seq<Step>, cfg: Config, p: Proc)
    requires p !in Run(steps, cfg).pcs && QuietForCooldown(Run(steps, cfg), cfg)
    ensures Next(Run(steps, cfg), Exists(p), cfg) == Logged(Run(steps, cfg), Passed(Run(steps, cfg).now))
  {
    Invariants(steps, cfg);
    QuietState(Run(steps, cfg), cfg);
    RecoversIff(steps, cfg, p);
  }

  /** Without that it does not: a process that sets the key a cooldown after it counted its failure
      opens the breaker anew, however quiet the time in between. */
  lemma DelayedOpening(s: State, p: Proc, cfg: Config)
    requires p in s.pcs && s.pcs[p].Counted? && cfg.cooldown > 0 && Timed(s)
    ensures var after := Next(Next(s, Tick(cfg.cooldown), cfg), SetOpen(p), cfg);
            && LiveAt(after.keys.open, after.now)
            && (forall i :: 0 <= i < |after.log| && after.log[i].Failed? ==>
                after.log[i].at + cfg.cooldown <= after.now)
  {
  }

  /** Such a run: one failure opens the breaker a whole cooldown later. */
  lemma LateOpening(cfg: Config)
    requires cfg.threshold == 1 && cfg.cooldown > 0
    ensures var s := Run([Fail(0), Tick(cfg.cooldown), SetOpen(0)], cfg);
            && LiveAt(s.keys.open, s.now)
            && (forall i :: 0 <= i < |s.log| && s.log[i].Failed? ==> s.log[i].at + cfg.cooldown <= s.now)
  {
    RunThree(Fail(0), Tick(cfg.cooldown), SetOpen(0), cfg);
    hide Run;
    DelayedOpening(Next(State(0, NO_KEYS, map[], []), Fail(0), cfg), 0, cfg);
  }

  // ---- The window that slides, and the one that would not ----

  /** A counter whose expiry is set by its first failure only. */
  datatype Fixed = Fixed(first: int, count: nat)

  function FixedCount(log: seq<Event>, fs: seq<nat>, window: nat): Fixed
    requires Positions(log, fs)
  {
    var n := |fs|;
    if n == 0 then Fixed(0, 0)
    else
      var before, at := FixedCount(log, fs[..n - 1], window), log[fs[n - 1]].at;
      if before.count > 0 && at < before.first + window then Fixed(before.first, before.count + 1) else Fixed(at, 1)
  }

  ghost predicate InTime(log: seq<Event>, fs: seq<nat>) {
    Positions(log, fs) && forall i, j :: 0 <= i < j < |fs| ==> log[fs[i]].at <= log[fs[j]].at
  }

  lemma {:induction false} StreakFits(log: seq<Event>, fs: seq<nat>, window: nat)
    requires Positions(log, fs)
    ensures Streak(log, fs, window) <= |fs|
    ensures fs != [] ==> Streak(log, fs, window) >= 1
  {
    if fs != [] {
      StreakFits(log, fs[..|fs| - 1], window);
    }
  }

  /** When the streak began. */
  function Began(log: seq<Event>, fs: seq<nat>, window: nat): int
    requires Positions(log, fs) && fs != []
  {
    StreakFits(log, fs, window);
    log[fs[|fs| - Streak(log, fs, window)]].at
  }

  lemma {:induction false} FixedAgainstSliding(log: seq<Event>, fs: seq<nat>, window: nat)
    requires InTime(log, fs) && fs != []
    ensures var fixed, streak := FixedCount(log, fs, window), Streak(log, fs, window);
            var began, last := Began(log, fs, window), log[fs[|fs| - 1]].at;
            || (fixed.count == streak && fixed.first == began <= last && (last - began < window || streak == 1))
            || (fixed.count < streak && streak > 1 && began + window <= fixed.first <= last)
  {
    StreakFits(log, fs, window);
    if |fs| > 1 {
      var init := fs[..|fs| - 1];
      FixedAgainstSliding(log, init, window);
      StreakFits(log, init, window);
      assert log[fs[|fs| - 2]].at <= log[fs[|fs| - 1]].at;
    }
  }

  lemma SlidingAgainstFixed(log: seq<Event>, cfg: Config)
    requires Failures(log) != []
    requires forall i, j :: 0 <= i < j < |log| ==> log[i].at <= log[j].at
    ensures FailOf(log, cfg).Some?
    ensures var fs := Failures(log);
            var fixed, sliding := FixedCount(log, fs, cfg.window).count, FailOf(log, cfg).value.count;
            && fixed <= sliding
            && (fixed == sliding <==> log[fs[|fs| - 1]].at - Began(log, fs, cfg.window) < cfg.window || sliding == 1)
  {
    FailuresIncrease(log);
    var fs := Failures(log);
    hide Failures;
    FixedAgainstSliding(log, fs, cfg.window);
    hide Streak;
    hide FixedCount;
    hide Began;
  }

  /** In every run the count that opens the breaker is the one a fixed window would have if and only if
      the whole streak lies within one window of its first failure; otherwise it is higher. */
  lemma SlidingIsFixedIff(steps: seq<Step>, cfg: Config)
    requires Failures(Run(steps, cfg).log) != []
    ensures Run(steps, cfg).keys.fail.Some?
    ensures var log := Run(steps, cfg).log;
            var fs := Failures(log);
            var fixed, sliding := FixedCount(log, fs, cfg.window).count, Run(steps, cfg).keys.fail.value.count;
            && fixed <= sliding
            && (fixed == sliding <==> log[fs[|fs| - 1]].at - Began(log, fs, cfg.window) < cfg.window || sliding == 1)
  {
    Invariants(steps, cfg);
    hide Run;
    hide Caused;
    hide ProbesSpaced;
    SlidingAgainstFixed(Run(steps, cfg).log, cfg);
    hide Failures;
    hide FailOf;
    hide FixedCount;
    hide Began;
  }

  lemma {:induction false} FailuresIncrease(log: seq<Event>)
    ensures forall i, j :: 0 <= i < j < |Failures(log)| ==> Failures(log)[i] < Failures(log)[j]
  {
    if log != [] {
      FailuresIncrease(log[..|log| - 1]);
    }
  }

  /** So three failures, each 50 seconds after the one before, open a breaker with a threshold of three
      and a window of 60 seconds; a window fixed by its first failure would have counted one. */
  lemma SlidingOpens(cfg: Config)
    requires cfg.threshold == 3 && cfg.window == 60 && cfg.cooldown > 0
    ensures var s := Run([] + [Fail(0)] + [Tick(50)] + [Fail(0)] + [Tick(50)] + [Fail(0)] + [SetOpen(0)], cfg);
            && LiveAt(s.keys.open, s.now) && s.log == [Failed(0), Failed(50), Failed(100), Opened(100, 2)]
            && FixedCount(s.log, [0, 1, 2], 60).count == 1
  {
    var one, three := [] + [Fail(0)], [] + [Fail(0)] + [Tick(50)] + [Fail(0)];
    RunSnoc([], Fail(0), cfg);
    RunSnoc(one, Tick(50), cfg);
    RunSnoc(one + [Tick(50)], Fail(0), cfg);
    RunSnoc(three, Tick(50), cfg);
    RunSnoc(three + [Tick(50)], Fail(0), cfg);
    RunSnoc(three + [Tick(50)] + [Fail(0)], SetOpen(0), cfg);
    assert Run([], cfg) == State(0, NO_KEYS, map[], []);
    hide *;
    FailAfter(State(0, NO_KEYS, map[], []), cfg);
    FailAfter(State(50, Keys(Some(Counter(1, 60)), None, None), map[], [] + [Failed(0)]), cfg);
    ThirdFailOpens([] + [Failed(0)] + [Failed(50)], cfg);
    assert [] + [Failed(0)] + [Failed(50)] + [Failed(100)] + [Opened(100, 2)]
        == [Failed(0), Failed(50), Failed(100), Opened(100, 2)];
    FixedOfExample();
  }

  lemma FailAfter(s: State, cfg: Config)
    requires cfg.threshold == 3 && cfg.window == 60 && s.pcs == map[]
    requires s.keys == NO_KEYS || (s.keys.fail.Some? && s.keys.fail.value.count == 1 && s.now < s.keys.fail.value.until)
    ensures var count := if s.keys == NO_KEYS then 1 else 2;
            Next(Next(s, Fail(0), cfg), Tick(50), cfg)
            == State(s.now + 50, s.keys.(fail := Some(Counter(count, s.now + 60))), map[], s.log + [Failed(s.now)])
  {
  }

  lemma ThirdFailOpens(log: seq<Event>, cfg: Config)
    requires cfg.threshold == 3 && cfg.window == 60 && cfg.cooldown > 0 && |log| == 2
    ensures var s := State(100, Keys(Some(Counter(2, 110)), None, None), map[], log);
            var after := Next(Next(s, Fail(0), cfg), SetOpen(0), cfg);
            LiveAt(after.keys.open, after.now) && after.log == log + [Failed(100)] + [Opened(100, 2)]
  {
  }

  lemma FixedOfExample()
    ensures var log := [Failed(0), Failed(50), Failed(100), Opened(100, 2)];
            Positions(log, [0, 1, 2]) && FixedCount(log, [0, 1, 2], 60).count == 1
  {
    var log := [Failed(0), Failed(50), Failed(100), Opened(100, 2)];
    assert [0, 1, 2][..2] == [0, 1] && [0, 1][..1] == [0] && [0][..0] == [];
    assert FixedCount(log, [0], 60) == Fixed(0, 1);
    assert FixedCount(log, [0, 1], 60) == Fixed(0, 2);
  }
}
