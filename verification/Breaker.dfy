/** The circuit breaker of a destination: three keys with a time to live, shared by all worker
    processes, and the operations on them, one Redis command at a time. */
module Breaker {
  import opened Options

  datatype Config = Config(threshold: nat, cooldown: nat, window: nat, probeTtl: nat)

  datatype Counter = Counter(count: nat, until: int)

  /** The fail counter, and the instants at which the open and the probe key expire. */
  datatype Keys = Keys(fail: Option<Counter>, open: Option<int>, probe: Option<int>)

  predicate LiveAt(until: Option<int>, now: int) {
    until.Some? && now < until.value
  }

  /** INCR and an unconditional EXPIRE, in one transaction: the window slides on every failure. */
  function Incremented(k: Keys, now: int, window: nat): Keys {
    var count := if k.fail.Some? && now < k.fail.value.until then k.fail.value.count + 1 else 1;
    k.(fail := Some(Counter(count, now + window)))
  }

  function ProbeSet(k: Keys, now: int, ttl: nat): Keys {
    if LiveAt(k.probe, now) then k else k.(probe := Some(now + ttl))
  }

  const NO_KEYS := Keys(None, None, None)

  class BreakerKeys {
    var keys: Keys

    constructor ()
      ensures keys == NO_KEYS
    {
      keys := NO_KEYS;
    }

    /** Ask before a send. A Redis fault at the first or the second command lets the send through. */
    method Check(now: int, ttl: nat, faultAtExists: bool, faultAtSet: bool) returns (allowed: bool)
      modifies this
      ensures !allowed <==> !faultAtExists && !faultAtSet && LiveAt(old(keys).open, now) && LiveAt(old(keys).probe, now)
      ensures keys == if faultAtExists || faultAtSet || !LiveAt(old(keys).open, now) then old(keys)
                      else ProbeSet(old(keys), now, ttl)
      ensures var open := old(keys).open.Some? && now < old(keys).open.value;
              var probed := old(keys).probe.Some? && now < old(keys).probe.value;
              && allowed == (faultAtExists || faultAtSet || !open || !probed)
              && keys == if !faultAtExists && !faultAtSet && open && !probed
                         then old(keys).(probe := Some(now + ttl)) else old(keys)
    {
      if faultAtExists {
        return true;
      }
      if !LiveAt(keys.open, now) {
        return true;
      }
      if faultAtSet {
        return true;
      }
      allowed := !LiveAt(keys.probe, now);
      if allowed {
        keys := keys.(probe := Some(now + ttl));
      }
    }

    method RecordSuccess(fault: bool)
      modifies this
      ensures keys == if fault then old(keys) else Keys(None, None, None)
    {
      if !fault {
        keys := NO_KEYS;
      }
    }

    method RecordFailure(now: int, cfg: Config, faultAtIncr: bool, faultAtSet: bool)
      modifies this
      ensures faultAtIncr ==> keys == old(keys)
      ensures !faultAtIncr ==>
                var counted := Incremented(old(keys), now, cfg.window);
                keys == if counted.fail.value.count >= cfg.threshold && !faultAtSet
                        then counted.(open := Some(now + cfg.cooldown)) else counted
      ensures !faultAtIncr ==>
                var live := old(keys).fail.Some? && now < old(keys).fail.value.until;
                var count := if live then old(keys).fail.value.count + 1 else 1;
                && keys.fail == Some(Counter(count, now + cfg.window)) && keys.probe == old(keys).probe
                && keys.open == if count >= cfg.threshold && !faultAtSet then Some(now + cfg.cooldown)
                                else old(keys).open
    {
      if faultAtIncr {
        return;
      }
      var count := 1;
      if keys.fail.Some? && now < keys.fail.value.until {
        count := keys.fail.value.count + 1;
      }
      keys := keys.(fail := Some(Counter(count, now + cfg.window)));
      if count >= cfg.threshold && !faultAtSet {
        keys := keys.(open := Some(now + cfg.cooldown));
      }
    }
  }
}
