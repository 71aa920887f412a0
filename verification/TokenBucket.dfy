/** The per-session token bucket that backs up capture sampling, over real time. One process, any
    number of sessions, calls interleaved in the order of its monotonic clock. */
module TokenBucket {
  import opened Options

  type Session = nat

  const MAX_EPS_CEILING: int := 5000

  datatype Bucket = Bucket(tokens: real, last: real)

  /** The module's two dictionaries. */
  datatype State = State(buckets: map<Session, Bucket>, skipped: map<Session, nat>)

  datatype Op = Throttle(sid: Session, maxEps: int, n: nat, at: real) | Reset(target: Option<Session>)

  function Clamped(maxEps: int): (r: int)
    ensures r <= maxEps && r <= 5000 && (r == maxEps || r == 5000)
  {
    if maxEps < MAX_EPS_CEILING then maxEps else MAX_EPS_CEILING
  }

  function Least(a: real, b: real): real {
    if a <= b then a else b
  }

  /** What a rate adds over a time. */
  function Refill(elapsed: real, rate: int): real {
    elapsed * rate as real
  }

  /** Tokens at the time of a call: a full burst at first sight, then refilled at the rate. */
  function Refilled(s: State, sid: Session, rate: int, now: real): real {
    var burst := rate as real * 2.0;
    var b := if sid in s.buckets then s.buckets[sid] else Bucket(burst, now);
    Least(burst, b.tokens + Refill(now - b.last, rate))
  }

  /** The most whole events that fit both the request and the tokens. */
  function Allowed(n: nat, tokens: real): (r: nat)
    requires tokens >= 0.0
    ensures r <= n && r as real <= tokens
    ensures r < n ==> tokens < r as real + 1.0
  {
    if n as real <= tokens then n else tokens.Floor
  }

  /** The clock never runs back on a session, and no bucket is in debt or above the highest burst. */
  predicate Sound(s: State, now: real) {
    forall sid | sid in s.buckets ::
      s.buckets[sid].last <= now && 0.0 <= s.buckets[sid].tokens <= MAX_EPS_CEILING as real * 2.0
  }

  predicate InOrder(s: State, op: Op) {
    op.Throttle? ==> Sound(s, op.at)
  }

  lemma RefillBounds(s: State, sid: Session, rate: int, now: real)
    requires Sound(s, now) && 0 < rate
    ensures 0.0 <= Refilled(s, sid, rate, now) <= rate as real * 2.0
  {
    var burst := rate as real * 2.0;
    var b := if sid in s.buckets then s.buckets[sid] else Bucket(burst, now);
    Scaled(now - b.last, 0, rate);
    hide Refill;
  }

  lemma Scaled(elapsed: real, low: int, high: int)
    requires elapsed >= 0.0 && low <= high
    ensures Refill(elapsed, low) <= Refill(elapsed, high)
    ensures low == 0 ==> Refill(elapsed, high) >= 0.0
  {
  }

  /** How many of the requested events pass. */
  function Granted(s: State, op: Op): (r: nat)
    requires op.Throttle? && InOrder(s, op)
    ensures r <= op.n
  {
    if op.maxEps <= 0 then op.n
    else
      RefillBounds(s, op.sid, Clamped(op.maxEps), op.at);
      Allowed(op.n, Refilled(s, op.sid, Clamped(op.maxEps), op.at))
  }

  function SkippedOf(s: State, sid: Session): nat {
    if sid in s.skipped then s.skipped[sid] else 0
  }

  function After(s: State, op: Op): State
    requires InOrder(s, op)
  {
    match op
    case Throttle(sid, maxEps, n, at) =>
      if maxEps <= 0 then s
      else
        var allowed := Granted(s, op);
        State(s.buckets[sid := Bucket(Refilled(s, sid, Clamped(maxEps), at) - allowed as real, at)],
              if allowed < n then s.skipped[sid := SkippedOf(s, sid) + (n - allowed)] else s.skipped)
    case Reset(None) => State(map[], map[])
    case Reset(Some(sid)) => State(s.buckets - {sid}, s.skipped - {sid})
  }

  /** The tokens a session finds: refilled at the rate since its last call, up to two seconds' worth, which
      is also what a new session finds. */
  ghost predicate Finds(s: State, sid: Session, maxEps: int, now: real, tokens: real) {
    var rate := if maxEps < 5000 then maxEps as real else 5000.0;
    if sid !in s.buckets then tokens == 2.0 * rate
    else
      var filled := s.buckets[sid].tokens + (now - s.buckets[sid].last) * rate;
      tokens == if filled <= 2.0 * rate then filled else 2.0 * rate
  }

  /** A limited call, by its numbers: it passes all it can of what was asked, takes exactly that from the
      tokens, so a rejected call leaves the fraction, and counts the rest as skipped. */
  ghost predicate Served(s: State, after: State, sid: Session, maxEps: int, n: nat, now: real, allowed: nat) {
    && sid in after.buckets && after.buckets == s.buckets[sid := after.buckets[sid]] && after.buckets[sid].last == now
    && Finds(s, sid, maxEps, now, after.buckets[sid].tokens + allowed as real)
    && after.buckets[sid].tokens >= 0.0 && allowed <= n && (allowed < n ==> after.buckets[sid].tokens < 1.0)
    && after.skipped == if allowed == n then s.skipped
                        else s.skipped[sid := (if sid in s.skipped then s.skipped[sid] else 0) + n - allowed]
  }

  lemma RefilledIsFound(s: State, sid: Session, maxEps: int, now: real)
    ensures Finds(s, sid, maxEps, now, Refilled(s, sid, Clamped(maxEps), now))
  {
  }

  lemma ServedAfter(s: State, sid: Session, maxEps: int, n: nat, now: real)
    requires Sound(s, now) && maxEps > 0
    ensures var op := Op.Throttle(sid, maxEps, n, now); Served(s, After(s, op), sid, maxEps, n, now, Granted(s, op))
  {
    RefillBounds(s, sid, Clamped(maxEps), now);
    RefilledIsFound(s, sid, maxEps, now);
    hide Refilled;
    hide Finds;
    hide Clamped;
  }

  class Throttler {
    var buckets: map<Session, Bucket>
    var skipped: map<Session, nat>

    function Current(): State
      reads this
    {
      State(buckets, skipped)
    }

    constructor ()
      ensures Current() == State(map[], map[])
    {
      buckets, skipped := map[], map[];
    }

    /** Let through what the bucket holds, count the rest as skipped. */
    method Throttle(sid: Session, maxEps: int, n: nat, now: real) returns (allowed: nat)
      requires Sound(Current(), now)
      modifies this
      ensures allowed == Granted(old(Current()), Op.Throttle(sid, maxEps, n, now))
      ensures Current() == After(old(Current()), Op.Throttle(sid, maxEps, n, now))
      ensures maxEps <= 0 ==> allowed == n && Current() == old(Current())
      ensures maxEps > 0 ==> sid in buckets && 0.0 <= buckets[sid].tokens <= Clamped(maxEps) as real * 2.0
      ensures allowed < n && maxEps > 0 ==> buckets[sid].tokens < 1.0
      ensures allowed + SkippedOf(Current(), sid) == n + SkippedOf(old(Current()), sid)
      ensures Sound(Current(), now)
      ensures maxEps > 0 ==> Served(old(Current()), Current(), sid, maxEps, n, now, allowed)
    {
      if maxEps <= 0 {
        return n;
      }
      ServedAfter(Current(), sid, maxEps, n, now);
      hide Served;
      hide Refill;
      hide Allowed;
      hide InOrder;
      var rate := if maxEps < MAX_EPS_CEILING then maxEps else MAX_EPS_CEILING;
      var burst := rate as real * 2.0;
      var tokens, last := burst, now;
      if sid in buckets {
        tokens, last := buckets[sid].tokens, buckets[sid].last;
      }
      RefillBounds(Current(), sid, rate, now);
      tokens := Least(burst, tokens + Refill(now - last, rate));
      assert tokens == Refilled(Current(), sid, rate, now);
      hide Refilled;
      hide Least;
      allowed := Allowed(n, tokens);
      tokens := tokens - allowed as real;
      buckets := buckets[sid := Bucket(tokens, now)];
      if allowed < n {
        skipped := skipped[sid := (if sid in skipped then skipped[sid] else 0) + (n - allowed)];
      }
    }

    method Reset(target: Option<Session>)
      modifies this
      ensures Current() == After(old(Current()), Op.Reset(target))
      ensures target.None? ==> buckets == map[] && skipped == map[]
      ensures target.Some? ==> buckets == old(buckets) - {target.value} && skipped == old(skipped) - {target.value}
    {
      match target
      case None => buckets, skipped := map[], map[];
      case Some(sid) => buckets, skipped := buckets - {sid}, skipped - {sid};
    }
  }

  // ---- Runs ----

  ghost predicate Ordered(ops: seq<Op>) {
    forall i, j :: 0 <= i < j < |ops| && ops[i].Throttle? && ops[j].Throttle? ==> ops[i].at <= ops[j].at
  }

  /** The latest clock reading of a run is an upper bound on every bucket's. */
  ghost predicate SoundAfter(s: State, ops: seq<Op>) {
    && (forall sid | sid in s.buckets :: 0.0 <= s.buckets[sid].tokens <= MAX_EPS_CEILING as real * 2.0)
    && (forall sid | sid in s.buckets :: exists i ::
        0 <= i < |ops| && ops[i].Throttle? && ops[i].at == s.buckets[sid].last)
  }

  function Run(ops: seq<Op>): (s: State)
    requires Ordered(ops)
    ensures SoundAfter(s, ops)
  {
    if ops == [] then State(map[], map[])
    else
      var init, op := ops[..|ops| - 1], ops[|ops| - 1];
      StepSound(Run(init), init, op);
      assert init + [op] == ops;
      After(Run(init), op)
  }

  lemma StepSound(s: State, init: seq<Op>, op: Op)
    requires SoundAfter(s, init) && Ordered(init + [op])
    ensures InOrder(s, op) && SoundAfter(After(s, op), init + [op])
  {
    var ops := init + [op];
    assert ops[|init|] == op && forall i :: 0 <= i < |init| ==> ops[i] == init[i];
    if op.Throttle? && op.maxEps > 0 {
      RefillBounds(s, op.sid, Clamped(op.maxEps), op.at);
    }
  }

  /** Events of a session let through (or requested) from position `from` on. */
  function AllowedSince(ops: seq<Op>, sid: Session, from: nat): nat
    requires Ordered(ops)
  {
    if |ops| <= from then 0
    else
      var init, op := ops[..|ops| - 1], ops[|ops| - 1];
      StepSound(Run(init), init, op);
      AllowedSince(init, sid, from) + if op.Throttle? && op.sid == sid then Granted(Run(init), op) else 0
  }

  function RequestedSince(ops: seq<Op>, sid: Session, from: nat): nat {
    if |ops| <= from then 0
    else
      var init, op := ops[..|ops| - 1], ops[|ops| - 1];
      RequestedSince(init, sid, from) + if op.Throttle? && op.sid == sid then op.n else 0
  }

  predicate ResetsSession(op: Op, sid: Session) {
    op.Reset? && (op.target.None? || op.target.value == sid)
  }

  /** From `from` on the session is not reset and always throttled, at rates of at most `rate`. */
  ghost predicate Limited(ops: seq<Op>, sid: Session, from: nat, rate: int) {
    forall k :: from <= k < |ops| ==>
      && !ResetsSession(ops[k], sid)
      && (ops[k].Throttle? && ops[k].sid == sid ==> 0 < Clamped(ops[k].maxEps) <= rate)
  }

  /** One call: what it lets through and leaves is at most what was there plus the refill. */
  lemma CallBound(s: State, op: Op, rate: int)
    requires op.Throttle? && InOrder(s, op) && 0 < Clamped(op.maxEps) <= rate
    ensures var left := After(s, op).buckets[op.sid].tokens;
            && 0.0 <= left && Granted(s, op) as real + left <= rate as real * 2.0
            && (op.sid in s.buckets ==>
                  Granted(s, op) as real + left
                      <= s.buckets[op.sid].tokens + Refill(op.at - s.buckets[op.sid].last, rate))
  {
    hide Refill;
    RefillBounds(s, op.sid, Clamped(op.maxEps), op.at);
    if op.sid in s.buckets {
      Scaled(op.at - s.buckets[op.sid].last, Clamped(op.maxEps), rate);
    }
  }

  lemma Distributes(a: real, b: real, c: real, rate: int)
    ensures Refill(b - a, rate) + Refill(c - b, rate) == Refill(c - a, rate)
  {
  }

  /** Events let through since `start` plus tokens left never exceed one burst plus the refill. */
  ghost predicate WithinBound(s: State, sid: Session, passed: nat, rate: int, start: real) {
    && sid in s.buckets && s.buckets[sid].tokens >= 0.0
    && passed as real + s.buckets[sid].tokens <= rate as real * 2.0 + Refill(s.buckets[sid].last - start, rate)
  }

  lemma StepWithinBound(s: State, op: Op, sid: Session, passed: nat, rate: int, start: real)
    requires InOrder(s, op) && WithinBound(s, sid, passed, rate, start) && !ResetsSession(op, sid)
    requires op.Throttle? && op.sid == sid ==> 0 < Clamped(op.maxEps) <= rate
    ensures var now := passed + if op.Throttle? && op.sid == sid then Granted(s, op) else 0;
            WithinBound(After(s, op), sid, now, rate, start)
  {
    hide Refill;
    hide Granted;
    if op.Throttle? && op.sid == sid {
      CallBound(s, op, rate);
      Distributes(start, s.buckets[sid].last, op.at, rate);
    }
  }

  lemma FirstWithinBound(s: State, op: Op, rate: int)
    requires op.Throttle? && InOrder(s, op) && 0 < Clamped(op.maxEps) <= rate
    ensures WithinBound(After(s, op), op.sid, Granted(s, op), rate, op.at)
  {
    CallBound(s, op, rate);
  }

  lemma {:induction false} Potential(ops: seq<Op>, sid: Session, from: nat, rate: int)
    requires Ordered(ops) && from < |ops| && Limited(ops, sid, from, rate)
    requires ops[from].Throttle? && ops[from].sid == sid
    ensures WithinBound(Run(ops), sid, AllowedSince(ops, sid, from), rate, ops[from].at)
  {
    hide WithinBound;
    hide After;
    hide Granted;
    hide SoundAfter;
    var init, op := ops[..|ops| - 1], ops[|ops| - 1];
    assert ops == init + [op];
    StepSound(Run(init), init, op);
    if from == |ops| - 1 {
      FirstWithinBound(Run(init), op, rate);
    } else {
      Potential(init, sid, from, rate);
      StepWithinBound(Run(init), op, sid, AllowedSince(init, sid, from), rate, ops[from].at);
    }
  }

  lemma {:induction false} LastCall(ops: seq<Op>, sid: Session, from: nat) returns (k: nat)
    requires Ordered(ops) && from < |ops| && ops[from].Throttle? && ops[from].sid == sid
    requires forall k :: from <= k < |ops| ==> !ResetsSession(ops[k], sid)
    requires forall k :: from <= k < |ops| && ops[k].Throttle? && ops[k].sid == sid ==> ops[k].maxEps > 0
    ensures from <= k < |ops| && ops[k].Throttle? && ops[k].sid == sid
    ensures sid in Run(ops).buckets && Run(ops).buckets[sid].last == ops[k].at
  {
    hide Refilled;
    hide Granted;
    var init, op := ops[..|ops| - 1], ops[|ops| - 1];
    assert ops == init + [op];
    StepSound(Run(init), init, op);
    if op.Throttle? && op.sid == sid {
      k := |ops| - 1;
    } else {
      k := LastCall(init, sid, from);
    }
  }

  /** In any stretch of a run in which a session is not reset and is throttled at rates of at most
      `rate` after clamping, the events let through in a time interval of length `length` number at
      most a burst of twice the rate plus the rate times the length. */
  lemma {:induction false} RateBound(ops: seq<Op>, sid: Session, from: nat, rate: int, start: real, length: real)
    requires Ordered(ops) && from <= |ops| && Limited(ops, sid, from, rate) && rate >= 0 && length >= 0.0
    requires forall k :: from <= k < |ops| && ops[k].Throttle? && ops[k].sid == sid ==>
        start <= ops[k].at <= start + length
    ensures AllowedSince(ops, sid, from) as real <= rate as real * 2.0 + Refill(length, rate)
    decreases |ops| - from
  {
    hide Refill;
    hide Run;
    Scaled(length, 0, rate);
    if from == |ops| {
    } else if ops[from].Throttle? && ops[from].sid == sid {
      Potential(ops, sid, from, rate);
      var last := LastCall(ops, sid, from);
      var span := Run(ops).buckets[sid].last - ops[from].at;
      Scaled(length - span, 0, rate);
      Distributes(0.0, span, length, rate);
    } else {
      SkipForeign(ops, sid, from);
      RateBound(ops, sid, from + 1, rate, start, length);
    }
  }

  lemma {:induction false} SkipForeign(ops: seq<Op>, sid: Session, from: nat)
    requires Ordered(ops) && from < |ops| && !(ops[from].Throttle? && ops[from].sid == sid)
    ensures AllowedSince(ops, sid, from) == AllowedSince(ops, sid, from + 1)
  {
    if from < |ops| - 1 {
      SkipForeign(ops[..|ops| - 1], sid, from);
    }
  }

  lemma StepCounted(s: State, op: Op, sid: Session)
    requires InOrder(s, op) && !ResetsSession(op, sid)
    ensures var called := op.Throttle? && op.sid == sid;
            (if called then Granted(s, op) else 0) + SkippedOf(After(s, op), sid)
            == SkippedOf(s, sid) + if called then op.n else 0
  {
    hide Refilled;
    hide Allowed;
  }

  /** Over a stretch without resets of a session, what was let through plus what was newly counted as
      skipped is what was requested. */
  lemma {:induction false} NothingUncounted(ops: seq<Op>, sid: Session, from: nat)
    requires Ordered(ops) && from <= |ops|
    requires forall k :: from <= k < |ops| ==> !ResetsSession(ops[k], sid)
    ensures AllowedSince(ops, sid, from) + SkippedOf(Run(ops), sid)
            == RequestedSince(ops, sid, from) + SkippedOf(Run(ops[..from]), sid)
    ensures AllowedSince(ops, sid, from) <= RequestedSince(ops, sid, from)
  {
    hide After;
    hide Granted;
    hide SkippedOf;
    hide SoundAfter;
    if from < |ops| {
      var init, op := ops[..|ops| - 1], ops[|ops| - 1];
      assert ops == init + [op] && init[..from] == ops[..from];
      NothingUncounted(init, sid, from);
      StepSound(Run(init), init, op);
      StepCounted(Run(init), op, sid);
    } else {
      assert ops[..from] == ops;
    }
  }

  // ---- Exactly which requests pass in full ----

  predicate Calls(op: Op, sid: Session) {
    op.Throttle? && op.sid == sid
  }

  /** A session that is never reset and always throttled at this rate. */
  ghost predicate FixedRate(ops: seq<Op>, sid: Session, rate: int) {
    rate > 0 && forall k :: 0 <= k < |ops| ==>
      !ResetsSession(ops[k], sid) && (Calls(ops[k], sid) ==> Clamped(ops[k].maxEps) == rate)
  }

  /** Between any two of its calls the session asks for at most a burst plus the rate times the time. */
  ghost predicate Conforming(ops: seq<Op>, sid: Session, rate: int) {
    forall i, j :: 0 <= i <= j < |ops| && Calls(ops[i], sid) && Calls(ops[j], sid) ==>
      WithinBurst(ops[..j + 1], sid, rate, i)
  }

  /** What was requested from the call `i` up to the last call. */
  ghost predicate WithinBurst(ops: seq<Op>, sid: Session, rate: int, i: nat)
    requires i < |ops| && ops[i].Throttle? && ops[|ops| - 1].Throttle?
  {
    RequestedSince(ops, sid, i) as real <= rate as real * 2.0 + Refill(ops[|ops| - 1].at - ops[i].at, rate)
  }

  /** The bucket was last full at the call `full`, and everything requested since was let through. */
  ghost predicate FullSince(s: State, ops: seq<Op>, sid: Session, rate: int, full: nat) {
    && full < |ops| && Calls(ops[full], sid) && sid in s.buckets
    && s.buckets[sid].tokens == rate as real * 2.0 + Refill(s.buckets[sid].last - ops[full].at, rate)
                                - RequestedSince(ops, sid, full) as real
  }

  /** One conforming call: it passes in full. */
  lemma ConformingCall(s: State, op: Op, init: seq<Op>, rate: int, full: nat)
    requires op.Throttle? && InOrder(s, op) && Clamped(op.maxEps) == rate && rate > 0
    requires op.n as real <= rate as real * 2.0
    requires op.sid in s.buckets ==>
               && FullSince(s, init, op.sid, rate, full)
               && RequestedSince(init, op.sid, full) as real + op.n as real
                  <= rate as real * 2.0 + Refill(op.at - init[full].at, rate)
    ensures Granted(s, op) == op.n
    ensures var left := After(s, op).buckets[op.sid].tokens;
            || left == rate as real * 2.0 - op.n as real
            || (&& op.sid in s.buckets
                && left == rate as real * 2.0 + Refill(op.at - init[full].at, rate)
                           - (RequestedSince(init, op.sid, full) as real + op.n as real))
  {
    hide Refill;
    hide RequestedSince;
    hide ResetsSession;
    RefillBounds(s, op.sid, rate, op.at);
    if op.sid in s.buckets {
      Distributes(init[full].at, s.buckets[op.sid].last, op.at, rate);
    } else {
      NoTime(op.at, rate);
    }
  }

  lemma NoTime(at: real, rate: int)
    ensures Refill(at - at, rate) == 0.0
  {
  }

  lemma RequestedSnoc(init: seq<Op>, op: Op, sid: Session, from: nat)
    requires from <= |init|
    ensures RequestedSince(init + [op], sid, from)
            == RequestedSince(init, sid, from) + if Calls(op, sid) then op.n else 0
    ensures RequestedSince(init, sid, |init|) == 0
  {
    assert (init + [op])[..|init|] == init;
  }

  /** What conforming says of the last call alone, and with the calls since `i`. */
  lemma ConformingNow(init: seq<Op>, op: Op, sid: Session, rate: int)
    requires Conforming(init + [op], sid, rate) && Calls(op, sid)
    ensures op.n as real <= rate as real * 2.0
  {
    hide Conforming;
    hide Refill;
    hide RequestedSince;
    EndsWithin(init, op, sid, rate, |init|);
    RequestedSnoc(init, op, sid, |init|);
    NoTime(op.at, rate);
  }

  lemma ConformingSince(init: seq<Op>, op: Op, sid: Session, rate: int, i: nat)
    requires Conforming(init + [op], sid, rate) && Calls(op, sid) && i < |init| && Calls(init[i], sid)
    ensures RequestedSince(init, sid, i) as real + op.n as real <= rate as real * 2.0 + Refill(op.at - init[i].at, rate)
  {
    hide Conforming;
    hide Refill;
    hide RequestedSince;
    EndsWithin(init, op, sid, rate, i);
    RequestedSnoc(init, op, sid, i);
  }

  lemma EndsWithin(init: seq<Op>, op: Op, sid: Session, rate: int, i: nat)
    requires Conforming(init + [op], sid, rate) && Calls(op, sid) && i <= |init| && Calls((init + [op])[i], sid)
    ensures WithinBurst(init + [op], sid, rate, i)
  {
    hide WithinBurst;
    var ops := init + [op];
    assert ops[..|init| + 1] == ops;
    assert Calls(ops[|init|], sid);
  }

  /** Somebody else's operation leaves the session as it was. */
  lemma FullSinceKept(s: State, init: seq<Op>, op: Op, sid: Session, rate: int, full: nat)
    requires InOrder(s, op) && !Calls(op, sid) && !ResetsSession(op, sid)
    ensures sid in After(s, op).buckets <==> sid in s.buckets
    ensures SkippedOf(After(s, op), sid) == SkippedOf(s, sid)
    ensures sid in s.buckets && FullSince(s, init, sid, rate, full) ==>
        FullSince(After(s, op), init + [op], sid, rate, full)
  {
    StepCounted(s, op, sid);
    if sid in s.buckets && full < |init| {
      RequestedSnoc(init, op, sid, full);
    }
    hide Refill;
    hide RequestedSince;
    hide Granted;
    hide Refilled;
  }

  /** A conforming call passes in full and keeps track of when the bucket was last full. */
  lemma FullSinceCall(s: State, init: seq<Op>, op: Op, sid: Session, rate: int, full: nat) returns (next: nat)
    requires InOrder(s, op) && Calls(op, sid) && Clamped(op.maxEps) == rate && rate > 0
    requires Conforming(init + [op], sid, rate)
    requires sid in s.buckets ==> FullSince(s, init, sid, rate, full)
    ensures SkippedOf(After(s, op), sid) == SkippedOf(s, sid)
    ensures FullSince(After(s, op), init + [op], sid, rate, next)
  {
    hide Refill;
    hide RequestedSince;
    ConformingNow(init, op, sid, rate);
    if sid in s.buckets {
      ConformingSince(init, op, sid, rate, full);
    }
    hide Conforming;
    ConformingCall(s, op, init, rate, full);
    StepCounted(s, op, sid);
    hide Granted;
    hide Refilled;
    NoTime(op.at, rate);
    RequestedSnoc(init, op, sid, |init|);
    if After(s, op).buckets[sid].tokens == rate as real * 2.0 - op.n as real {
      next := |init|;
    } else {
      RequestedSnoc(init, op, sid, full);
      next := full;
    }
  }

  lemma {:induction false} ConformingPasses(ops: seq<Op>, sid: Session, rate: int) returns (full: nat)
    requires Ordered(ops) && FixedRate(ops, sid, rate) && Conforming(ops, sid, rate)
    ensures SkippedOf(Run(ops), sid) == 0
    ensures sid in Run(ops).buckets ==> FullSince(Run(ops), ops, sid, rate, full)
  {
    hide Conforming;
    hide FullSince;
    if ops == [] {
      full := 0;
    } else {
      var init, op := ops[..|ops| - 1], ops[|ops| - 1];
      assert ops == init + [op];
      ConformingPrefix(ops, sid, rate);
      full := ConformingPasses(init, sid, rate);
      StepSound(Run(init), init, op);
      hide After;
      hide SkippedOf;
      hide SoundAfter;
      if Calls(op, sid) {
        full := FullSinceCall(Run(init), init, op, sid, rate, full);
      } else {
        FullSinceKept(Run(init), init, op, sid, rate, full);
      }
    }
  }

  lemma ConformingPrefix(ops: seq<Op>, sid: Session, rate: int)
    requires ops != [] && Conforming(ops, sid, rate)
    ensures Conforming(ops[..|ops| - 1], sid, rate)
  {
    hide WithinBurst;
    var init := ops[..|ops| - 1];
    forall i, j | 0 <= i <= j < |init| && Calls(init[i], sid) && Calls(init[j], sid)
      ensures WithinBurst(init[..j + 1], sid, rate, i)
    {
      assert init[..j + 1] == ops[..j + 1] && Calls(ops[i], sid) && Calls(ops[j], sid);
    }
  }

  /** The limit is exact: a session throttled at a fixed rate is never skipped if and only if, between
      any two of its calls, it asks for at most twice the rate plus the rate times the time. */
  lemma NeverSkipsIff(ops: seq<Op>, sid: Session, rate: int)
    requires Ordered(ops) && FixedRate(ops, sid, rate)
    ensures SkippedOf(Run(ops), sid) == 0 <==> Conforming(ops, sid, rate)
  {
    if Conforming(ops, sid, rate) {
      var _ := ConformingPasses(ops, sid, rate);
    }
    if SkippedOf(Run(ops), sid) == 0 {
      forall i, j | 0 <= i <= j < |ops| && Calls(ops[i], sid) && Calls(ops[j], sid)
        ensures WithinBurst(ops[..j + 1], sid, rate, i)
      {
        WindowWithinBound(ops, sid, rate, i, j);
      }
    }
  }

  lemma {:induction false} WindowWithinBound(ops: seq<Op>, sid: Session, rate: int, i: nat, j: nat)
    requires Ordered(ops) && FixedRate(ops, sid, rate) && SkippedOf(Run(ops), sid) == 0
    requires i <= j < |ops| && Calls(ops[i], sid) && Calls(ops[j], sid)
    ensures WithinBurst(ops[..j + 1], sid, rate, i)
  {
    hide Run;
    hide SkippedOf;
    hide Refill;
    hide AllowedSince;
    hide RequestedSince;
    var part := ops[..j + 1];
    NothingUncounted(ops, sid, j + 1);
    NothingUncounted(part, sid, i);
    RateBound(part, sid, i, rate, ops[i].at, ops[j].at - ops[i].at);
  }

  // ---- What passes under overload ----

  /** Position `k` of a stretch that starts at `from`: if it is a call of the session, it is throttled at this
      rate, it comes at most a second after an earlier one, and something of it is skipped. */
  ghost predicate Pressing(ops: seq<Op>, sid: Session, from: nat, rate: int, k: nat)
    requires Ordered(ops) && k < |ops|
  {
    && !ResetsSession(ops[k], sid)
    && (Calls(ops[k], sid) ==>
          && ops[k].maxEps > 0 && Clamped(ops[k].maxEps) == rate
          && AllowedSince(ops[..k + 1], sid, k) < ops[k].n
          && (k == from || exists i :: from <= i < k && Calls(ops[i], sid) && ops[k].at <= ops[i].at + 1.0))
  }

  ghost predicate Pressed(ops: seq<Op>, sid: Session, from: nat, rate: int)
    requires Ordered(ops)
  {
    forall k: nat :: from <= k < |ops| ==> Pressing(ops, sid, from, rate, k)
  }

  lemma PressedPrefix(ops: seq<Op>, sid: Session, from: nat, rate: int)
    requires Ordered(ops) && from < |ops| - 1 && Pressed(ops, sid, from, rate)
    ensures Ordered(ops[..|ops| - 1]) && Pressed(ops[..|ops| - 1], sid, from, rate)
  {
    var init := ops[..|ops| - 1];
    forall k: nat | from <= k < |init| ensures Pressing(init, sid, from, rate, k) {
      assert Pressing(ops, sid, from, rate, k) && init[..k + 1] == ops[..k + 1];
      hide AllowedSince;
    }
  }

  lemma GrantedLast(init: seq<Op>, op: Op, sid: Session)
    requires Ordered(init) && Ordered(init + [op]) && Calls(op, sid)
    ensures InOrder(Run(init), op) && AllowedSince(init + [op], sid, |init|) == Granted(Run(init), op)
  {
    StepSound(Run(init), init, op);
    assert (init + [op])[..|init|] == init;
  }

  /** What the first call left, refilled since at the full rate, is what passed since and what is left now:
      the bucket never fills up, and less than one token is left. */
  ghost predicate Spent(s: State, sid: Session, passed: nat, rate: int, start: real, first: real) {
    && sid in s.buckets && 0.0 <= s.buckets[sid].tokens < 1.0
    && passed as real + s.buckets[sid].tokens == first + Refill(s.buckets[sid].last - start, rate)
  }

  lemma SpentByCall(s: State, op: Op, passed: nat, rate: int, start: real, first: real)
    requires op.Throttle? && InOrder(s, op) && op.maxEps > 0 && Clamped(op.maxEps) == rate
    requires Spent(s, op.sid, passed, rate, start, first)
    requires Granted(s, op) < op.n && op.at <= s.buckets[op.sid].last + 1.0
    ensures Spent(After(s, op), op.sid, passed + Granted(s, op), rate, start, first)
  {
    hide Refill;
    var last := s.buckets[op.sid].last;
    RefillBounds(s, op.sid, rate, op.at);
    Distributes(start, last, op.at, rate);
    WithinASecond(op.at - last, rate);
  }

  lemma WithinASecond(elapsed: real, rate: int)
    requires 0.0 <= elapsed <= 1.0 && rate > 0
    ensures Refill(elapsed, rate) <= rate as real
  {
    assert (1.0 - elapsed) * rate as real >= 0.0;
  }

  lemma FirstSpent(s: State, op: Op, rate: int)
    requires op.Throttle? && InOrder(s, op) && op.maxEps > 0 && Clamped(op.maxEps) == rate
    requires Granted(s, op) < op.n
    ensures op.sid in After(s, op).buckets
    ensures Spent(After(s, op), op.sid, 0, rate, op.at, After(s, op).buckets[op.sid].tokens)
  {
    RefillBounds(s, op.sid, rate, op.at);
    NoTime(op.at, rate);
    hide Refill;
    hide Refilled;
  }

  lemma SpentKept(s: State, op: Op, sid: Session, passed: nat, rate: int, start: real, first: real)
    requires InOrder(s, op) && !Calls(op, sid) && !ResetsSession(op, sid)
    requires Spent(s, sid, passed, rate, start, first)
    ensures Spent(After(s, op), sid, passed, rate, start, first)
  {
    hide Refill;
    hide Granted;
    hide Refilled;
  }

  /** The bucket's last use is not before any call since. */
  lemma {:induction false} LastIsLatest(ops: seq<Op>, sid: Session, from: nat, rate: int, i: nat)
    requires Ordered(ops) && from <= i < |ops| && Calls(ops[i], sid) && Pressed(ops, sid, from, rate)
    ensures sid in Run(ops).buckets && Run(ops).buckets[sid].last >= ops[i].at
    decreases |ops|
  {
    hide Refilled;
    hide Granted;
    hide AllowedSince;
    hide SoundAfter;
    var init, op := ops[..|ops| - 1], ops[|ops| - 1];
    assert ops == init + [op];
    assert Pressing(ops, sid, from, rate, |ops| - 1);
    StepSound(Run(init), init, op);
    if i < |init| {
      PressedPrefix(ops, sid, from, rate);
      hide Pressed;
      LastIsLatest(init, sid, from, rate, i);
    }
  }

  lemma SpentFirst(init: seq<Op>, op: Op, sid: Session, rate: int)
    requires Ordered(init + [op]) && Calls(op, sid) && Pressing(init + [op], sid, |init|, rate, |init|)
    ensures sid in Run(init + [op]).buckets
    ensures Spent(Run(init + [op]), sid, 0, rate, op.at, Run(init + [op]).buckets[sid].tokens)
    ensures AllowedSince(init + [op], sid, |init| + 1) == 0
  {
    var ops := init + [op];
    assert ops[..|init|] == init && ops[..|init| + 1] == ops;
    StepSound(Run(init), init, op);
    GrantedLast(init, op, sid);
    FirstSpent(Run(init), op, rate);
    hide Spent;
    hide Granted;
    hide SoundAfter;
  }

  lemma AllowedSnoc(init: seq<Op>, op: Op, sid: Session, from: nat)
    requires Ordered(init) && Ordered(init + [op]) && from <= |init|
    ensures InOrder(Run(init), op) && Run(init + [op]) == After(Run(init), op)
    ensures AllowedSince(init + [op], sid, from)
            == AllowedSince(init, sid, from) + if Calls(op, sid) then Granted(Run(init), op) else 0
  {
    StepSound(Run(init), init, op);
    assert (init + [op])[..|init|] == init;
  }

  lemma SpentNext(init: seq<Op>, op: Op, sid: Session, from: nat, rate: int, start: real, first: real)
    requires from < |init| && Ordered(init) && Ordered(init + [op])
    requires Pressed(init, sid, from, rate) && Pressing(init + [op], sid, from, rate, |init|)
    requires Spent(Run(init), sid, AllowedSince(init, sid, from + 1), rate, start, first)
    ensures Spent(Run(init + [op]), sid, AllowedSince(init + [op], sid, from + 1), rate, start, first)
  {
    var ops := init + [op];
    assert ops[..|init| + 1] == ops;
    AllowedSnoc(init, op, sid, from + 1);
    if Calls(op, sid) {
      GrantedLast(init, op, sid);
      var i :| from <= i < |init| && Calls(ops[i], sid) && op.at <= ops[i].at + 1.0;
      assert ops[i] == init[i];
      LastIsLatest(init, sid, from, rate, i);
      hide *;
      SpentByCall(Run(init), op, AllowedSince(init, sid, from + 1), rate, start, first);
    } else {
      SpentKept(Run(init), op, sid, AllowedSince(init, sid, from + 1), rate, start, first);
    }
  }

  lemma {:induction false} SpentSince(ops: seq<Op>, sid: Session, from: nat, rate: int) returns (first: real)
    requires Ordered(ops) && from < |ops| && Calls(ops[from], sid) && Pressed(ops, sid, from, rate)
    ensures first >= 0.0 && Spent(Run(ops), sid, AllowedSince(ops, sid, from + 1), rate, ops[from].at, first)
    decreases |ops|
  {
    var init, op := ops[..|ops| - 1], ops[|ops| - 1];
    assert ops == init + [op];
    assert Pressing(ops, sid, from, rate, |init|);
    hide Spent;
    hide Run;
    hide AllowedSince;
    hide Pressing;
    if from == |init| {
      SpentFirst(init, op, sid, rate);
      first := Run(ops).buckets[sid].tokens;
      StartsInCredit(Run(ops), sid, rate, op.at);
    } else {
      PressedPrefix(ops, sid, from, rate);
      first := SpentSince(init, sid, from, rate);
      SpentNext(init, op, sid, from, rate, ops[from].at, first);
    }
  }

  lemma StartsInCredit(s: State, sid: Session, rate: int, at: real)
    requires sid in s.buckets && Spent(s, sid, 0, rate, at, s.buckets[sid].tokens)
    ensures s.buckets[sid].tokens >= 0.0
  {
  }

  /** The rate is reached: while a session keeps asking, at least once a second, for more than it gets, all
      but less than one event of rate times time passes. A rejection costs it nothing. */
  lemma {:induction false} RateReached(ops: seq<Op>, sid: Session, from: nat, rate: int)
    requires Ordered(ops) && from < |ops| && Calls(ops[from], sid) && Pressed(ops, sid, from, rate)
    requires Calls(ops[|ops| - 1], sid)
    ensures AllowedSince(ops, sid, from + 1) as real > Refill(ops[|ops| - 1].at - ops[from].at, rate) - 1.0
  {
    assert ops[from].Throttle? && ops[|ops| - 1].Throttle?;
    hide *;
    LastIsLast(ops, sid, from, rate);
    var first := SpentSince(ops, sid, from, rate);
    AllButOne(Run(ops), sid, AllowedSince(ops, sid, from + 1), rate, ops[from].at, first);
  }

  lemma AllButOne(s: State, sid: Session, passed: nat, rate: int, start: real, first: real)
    requires first >= 0.0 && sid in s.buckets && Spent(s, sid, passed, rate, start, first)
    ensures passed as real > Refill(s.buckets[sid].last - start, rate) - 1.0
  {
    hide Refill;
  }

  lemma LastIsLast(ops: seq<Op>, sid: Session, from: nat, rate: int)
    requires Ordered(ops) && from < |ops| && Calls(ops[|ops| - 1], sid) && Pressed(ops, sid, from, rate)
    ensures sid in Run(ops).buckets && Run(ops).buckets[sid].last == ops[|ops| - 1].at
  {
    hide Refilled;
    hide Granted;
    hide AllowedSince;
    var init, op := ops[..|ops| - 1], ops[|ops| - 1];
    assert ops == init + [op];
    assert Pressing(ops, sid, from, rate, |ops| - 1);
    StepSound(Run(init), init, op);
  }
}
