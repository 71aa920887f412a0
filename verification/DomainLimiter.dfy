/** The per-domain limit on concurrent requests: a sorted set of leases, taken by a script that runs
    atomically and given back when the request ends. */
module DomainLimiter {
  /** A slot call; each draws its own token. */
  type Token = nat

  const LEASE_MS: nat := 30000
  const POLL_SLEEP_MS: nat := 200

  /** What Redis holds: scores by token, and when the whole key expires. */
  datatype Store = Store(entries: map<Token, nat>, expiresAt: nat)

  function Visible(s: Store, clock: nat): (r: map<Token, nat>)
    ensures forall t :: t in r <==> clock < s.expiresAt && t in s.entries
    ensures forall t :: t in r ==> r[t] == s.entries[t]
  {
    if clock < s.expiresAt then s.entries else map[]
  }

  /** What ZREMRANGEBYSCORE leaves for a caller that read the clock at `read`. */
  function Unexpired(entries: map<Token, nat>, read: nat): (r: map<Token, nat>)
    ensures forall t :: t in r <==> t in entries && read < entries[t] + LEASE_MS
    ensures forall t :: t in r ==> r[t] == entries[t]
  {
    map t | t in entries && !(entries[t] <= read - LEASE_MS) :: entries[t]
  }

  /** The script at server time `clock`, for a caller that read `read`. */
  function Evaluated(s: Store, clock: nat, read: nat, limit: int, token: Token): Store {
    var kept := Unexpired(Visible(s, clock), read);
    if |kept| < limit then Store(kept[token := read], clock + LEASE_MS)
    else Store(kept, s.expiresAt)
  }

  predicate Grants(s: Store, clock: nat, read: nat, limit: int) {
    |Unexpired(Visible(s, clock), read)| < limit
  }

  lemma Submap(small: map<Token, nat>, large: map<Token, nat>)
    requires small.Keys <= large.Keys
    ensures |small| <= |large|
  {
    CountWithin(small.Keys, large.Keys);
    assert |small| == |small.Keys| && |large| == |large.Keys|;
  }

  lemma {:induction false} CountWithin(small: set<Token>, large: set<Token>)
    requires small <= large
    ensures |small| <= |large|
  {
    if t :| t in small {
      CountWithin(small - {t}, large - {t});
    }
  }

  lemma AddedCount(entries: map<Token, nat>, token: Token, read: nat)
    ensures |entries[token := read]| <= |entries| + 1
  {
    assert entries[token := read].Keys == entries.Keys + {token};
    assert |entries[token := read]| == |entries[token := read].Keys| && |entries| == |entries.Keys|;
  }

  // ---- The store in place, and the polling caller ----

  /** What another caller does to the set between two attempts. */
  datatype Other = Took(token: Token) | GaveBack(token: Token)

  /** One polling round: how long the call to Redis takes, what others do meanwhile, and how much
      longer than asked the sleep lasts. */
  datatype Round = Round(latency: nat, others: seq<Other>, oversleep: nat)

  ghost predicate NobodyTakes(others: seq<Other>) {
    forall i :: 0 <= i < |others| ==> others[i].GaveBack?
  }

  class Semaphore {
    var entries: map<Token, nat>
    var expiresAt: nat
    var clock: nat
    const limit: int

    function Stored(): Store
      reads this
    {
      Store(entries, expiresAt)
    }

    /** No more leases than the limit, none from the future, none outliving the key. */
    ghost predicate Valid()
      reads this
    {
      && (limit >= 0 ==> |entries| <= limit) && (limit < 0 ==> entries == map[])
      && forall t :: t in entries ==> entries[t] <= clock && entries[t] + LEASE_MS <= expiresAt
    }

    constructor (limit: int)
      ensures Valid() && this.limit == limit && entries == map[]
    {
      this.limit := limit;
      entries, expiresAt, clock := map[], 0, 0;
    }

    /** The acquire script, command by command. */
    method Eval(read: nat, token: Token) returns (acquired: bool)
      requires Valid() && read <= clock
      modifies this`entries, this`expiresAt
      ensures Valid() && acquired == Grants(old(Stored()), clock, read, limit)
      ensures Stored() == Evaluated(old(Stored()), clock, read, limit, token)
      ensures acquired <==>
              |set t | t in old(entries) && clock < old(expiresAt) && read < old(entries)[t] + LEASE_MS| < limit
      ensures forall t | t != token || !acquired ::
                t in entries <==> t in old(entries) && clock < old(expiresAt) && read < old(entries)[t] + LEASE_MS
      ensures forall t | t in entries && (t != token || !acquired) :: entries[t] == old(entries)[t]
      ensures acquired ==> token in entries && entries[token] == read
      ensures expiresAt == if acquired then clock + LEASE_MS else old(expiresAt)
    {
      assert (set t | t in entries && clock < expiresAt && read < entries[t] + LEASE_MS)
          == Unexpired(Visible(Stored(), clock), read).Keys;
      assert |Unexpired(Visible(Stored(), clock), read)| == |Unexpired(Visible(Stored(), clock), read).Keys|;
      var present := Visible(Stored(), clock);
      entries := Unexpired(present, read);
      Submap(entries, present);
      var count := |entries|;
      if count < limit {
        AddedCount(entries, token, read);
        entries := entries[token := read];
        expiresAt := clock + LEASE_MS;
        return true;
      }
      return false;
    }

    method Zrem(token: Token)
      requires Valid()
      modifies this`entries
      ensures Valid() && entries == old(entries) - {token}
    {
      Submap(entries - {token}, entries);
      entries := entries - {token};
    }

    method Advance(elapsed: nat)
      requires Valid()
      modifies this`clock
      ensures Valid() && clock == old(clock) + elapsed
    {
      clock := clock + elapsed;
    }

    method Others(others: seq<Other>)
      requires Valid()
      modifies this`entries, this`expiresAt
      ensures Valid()
      ensures NobodyTakes(others) ==> expiresAt == old(expiresAt) && entries.Keys <= old(entries).Keys
      ensures NobodyTakes(others) ==> forall t :: t in entries ==> entries[t] == old(entries)[t]
    {
      for i := 0 to |others|
        invariant Valid()
        invariant NobodyTakes(others) ==> expiresAt == old(expiresAt) && entries.Keys <= old(entries).Keys
        invariant NobodyTakes(others) ==> forall t :: t in entries ==> entries[t] == old(entries)[t]
      {
        match others[i]
        case Took(other) => var _ := Eval(clock, other);
        case GaveBack(other) => Zrem(other);
      }
    }

    /** Poll for a slot until `maxWait` has passed: read the clock, run the script, sleep. The token is
        held on success; a timeout comes only after the whole wait; and if nobody else takes a slot
        meanwhile, a wait of one lease plus the slowest call always ends with the slot, whatever the
        holders before it failed to give back. */
    method Slot(token: Token, maxWait: nat, rounds: seq<Round>, slowest: nat, late: nat) returns (acquired: bool)
      requires Valid()
      requires forall k :: 0 <= k < |rounds| ==> rounds[k].latency <= slowest && rounds[k].oversleep <= late
      modifies this
      ensures Valid()
      ensures acquired ==> token in entries && old(clock) <= entries[token] <= clock
      ensures !acquired ==> clock >= old(clock) + maxWait
      ensures clock < old(clock) + maxWait + POLL_SLEEP_MS + late + slowest
      ensures limit >= 1 && maxWait >= LEASE_MS + slowest
              && (forall k :: 0 <= k < |rounds| ==> NobodyTakes(rounds[k].others))
              ==> acquired
    {
      var deadline := clock + maxWait;
      ghost var start := clock;
      ghost var alone := forall k :: 0 <= k < |rounds| ==> NobodyTakes(rounds[k].others);
      var k := 0;
      while true
        invariant Valid() && start <= clock
        invariant alone ==> forall t :: t in entries ==> entries[t] <= start
        invariant clock < deadline + POLL_SLEEP_MS + late
        decreases deadline + POLL_SLEEP_MS + late - clock
      {
        var round := if k < |rounds| then rounds[k] else Round(0, [], 0);
        var read := clock;
        Others(round.others);
        Advance(round.latency);
        acquired := Eval(read, token);
        if acquired {
          return;
        }
        if clock >= deadline {
          return;
        }
        Advance(POLL_SLEEP_MS + round.oversleep);
        k := k + 1;
      }
    }
  }
}
