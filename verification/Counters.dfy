/** Windowed counters: one Redis hash per series with one field per time bucket, and a time to live on
    the whole hash that every write renews. Times, bucket, window and time to live are whole numbers
    of one clock unit. */
module Counters {
  import opened Options

  /** A write that reached Redis. */
  datatype Write = Write(at: int, value: real)

  datatype Stored = Stored(hash: map<int, real>, expiresAt: int)

  function BucketEpoch(now: int, bucket: int): (r: int)
    requires bucket > 0
    ensures r <= now < r + bucket
  {
    (now / bucket) * bucket
  }

  predicate Divides(bucket: int, k: int)
    requires bucket > 0
  {
    BucketEpoch(k, bucket) == k
  }

  function Present(s: Stored, now: int): map<int, real> {
    if now < s.expiresAt then s.hash else map[]
  }

  /** HINCRBYFLOAT and EXPIRE in one transaction. */
  function Recorded(s: Stored, w: Write, bucket: int, ttl: int): Stored
    requires bucket > 0
  {
    var hash := Present(s, w.at);
    var b := BucketEpoch(w.at, bucket);
    Stored(hash[b := (if b in hash then hash[b] else 0.0) + w.value], w.at + ttl)
  }

  ghost predicate Ordered(log: seq<Write>) {
    forall i, j :: 0 <= i < j < |log| ==> log[i].at <= log[j].at
  }

  /** What Redis stores after these writes. */
  function Run(log: seq<Write>, bucket: int, ttl: int): Stored
    requires bucket > 0
  {
    if log == [] then Stored(map[], 0) else Recorded(Run(log[..|log| - 1], bucket, ttl), log[|log| - 1], bucket, ttl)
  }

  // ---- Sums over a hash ----

  lemma Inhabited(keys: set<int>)
    ensures keys == {} || exists k :: k in keys
  {
    if forall k :: k !in keys {
      assert keys == {};
    }
  }

  ghost function Pick(keys: set<int>): (k: int)
    requires keys != {}
    ensures k in keys
  {
    Inhabited(keys);
    var k :| k in keys;
    k
  }

  ghost function SumOver(keys: set<int>, hash: map<int, real>): real
    requires keys <= hash.Keys
  {
    if keys == {} then 0.0 else hash[Pick(keys)] + SumOver(keys - {Pick(keys)}, hash)
  }

  ghost function From(keys: set<int>, cutoff: int): set<int> {
    set k | k in keys && k >= cutoff
  }

  ghost function WindowSum(hash: map<int, real>, cutoff: int): real {
    SumOver(From(hash.Keys, cutoff), hash)
  }

  lemma {:induction false} TakeOne(keys: set<int>, hash: map<int, real>, x: int)
    requires x in keys && keys <= hash.Keys
    ensures SumOver(keys, hash) == hash[x] + SumOver(keys - {x}, hash)
  {
    var k := Pick(keys);
    if k != x {
      TakeOne(keys - {k}, hash, x);
      TakeOne(keys - {x}, hash, k);
      assert keys - {k} - {x} == keys - {x} - {k};
    }
  }

  lemma {:induction false} SameSum(keys: set<int>, a: map<int, real>, b: map<int, real>)
    requires keys <= a.Keys && keys <= b.Keys && forall k :: k in keys ==> a[k] == b[k]
    ensures SumOver(keys, a) == SumOver(keys, b)
  {
    if k :| k in keys {
      TakeOne(keys, a, k);
      TakeOne(keys, b, k);
      SameSum(keys - {k}, a, b);
    }
  }

  /** An increment adds to the window's sum exactly when its bucket is in the window. */
  lemma IncrementedSum(hash: map<int, real>, b: int, value: real, cutoff: int)
    ensures WindowSum(hash[b := (if b in hash then hash[b] else 0.0) + value], cutoff)
            == WindowSum(hash, cutoff) + if b >= cutoff then value else 0.0
  {
    var after := hash[b := (if b in hash then hash[b] else 0.0) + value];
    var before, keys := From(hash.Keys, cutoff), From(after.Keys, cutoff);
    if b < cutoff {
      assert keys == before;
      SameSum(keys, hash, after);
    } else {
      assert keys - {b} == before - {b};
      TakeOne(keys, after, b);
      SameSum(keys - {b}, hash, after);
      if b in hash {
        TakeOne(before, hash, b);
      } else {
        assert before - {b} == before;
      }
    }
  }

  // ---- The store in place ----

  class Series {
    const bucket: int
    const ttl: int
    var hash: map<int, real>
    var expiresAt: int
    ghost var log: seq<Write>  // the writes that reached Redis, acknowledged or not

    ghost predicate Valid()
      reads this
    {
      bucket > 0 && Stored(hash, expiresAt) == Run(log, bucket, ttl)
    }

    constructor (bucket: int, ttl: int)
      requires bucket > 0
      ensures Valid() && log == [] && this.bucket == bucket && this.ttl == ttl
    {
      this.bucket, this.ttl := bucket, ttl;
      hash, expiresAt, log := map[], 0, [];
    }

    /** `fault` is None for an acknowledged transaction; otherwise it says whether a transaction whose
        reply failed took effect. A zero value writes nothing and is no loss. */
    method RecordCounter(value: real, now: int, fault: Option<bool>) returns (confirmed: bool)
      requires Valid()
      modifies this
      ensures Valid()
      ensures log == if value == 0.0 || fault == Some(false) then old(log) else old(log) + [Write(now, value)]
      ensures confirmed <==> value == 0.0 || fault.None?
    {
      if value == 0.0 {
        return true;
      }
      if fault != Some(false) {
        var b := BucketEpoch(now, bucket);
        var present := Present(Stored(hash, expiresAt), now);
        hash := present[b := (if b in present then present[b] else 0.0) + value];
        expiresAt := now + ttl;
        assert (log + [Write(now, value)])[..|log|] == log;
        log := log + [Write(now, value)];
      }
      return fault.None?;
    }

    /** Sum the fields of the window; a failed read is passed on. */
    method ReadWindowTotalStrict(window: int, now: int, fault: bool) returns (total: Option<real>)
      requires Valid()
      ensures total == if fault then None
                       else Some(WindowSum(Present(Stored(hash, expiresAt), now), BucketEpoch(now, bucket) - window))
    {
      if fault {
        return None;
      }
      var cutoff := BucketEpoch(now, bucket) - window;
      var raw := Present(Stored(hash, expiresAt), now);
      var rest, sum := raw.Keys, 0.0;
      while rest != {}
        invariant rest <= raw.Keys
        invariant sum + SumOver(From(rest, cutoff), raw) == WindowSum(raw, cutoff)
      {
        var b :| b in rest;
        ghost var kept, left := From(rest, cutoff), From(rest - {b}, cutoff);
        if b >= cutoff {
          TakeOne(kept, raw, b);
          assert kept - {b} == left;
          sum := sum + raw[b];
        } else {
          assert kept == left;
        }
        rest := rest - {b};
      }
      return Some(sum);
    }

    /** The best-effort read: a failed read looks like an empty window. */
    method ReadWindowTotal(window: int, now: int, fault: bool) returns (total: real)
      requires Valid()
      ensures total == if fault then 0.0
                       else WindowSum(Present(Stored(hash, expiresAt), now), BucketEpoch(now, bucket) - window)
    {
      var read := ReadWindowTotalStrict(window, now, fault);
      total := if read.None? then 0.0 else read.value;
    }
  }

  // ---- Agreement with the raw log ----

  /** The log's total over the buckets at or after the cutoff. */
  function LogSum(log: seq<Write>, cutoff: int, bucket: int): real
    requires bucket > 0
  {
    if log == [] then 0.0
    else
      var w := log[|log| - 1];
      LogSum(log[..|log| - 1], cutoff, bucket) + if BucketEpoch(w.at, bucket) >= cutoff then w.value else 0.0
  }

  /** The log's total over the writes at or after an instant. */
  function TrueSum(log: seq<Write>, oldest: int): real {
    if log == [] then 0.0
    else
      var w := log[|log| - 1];
      TrueSum(log[..|log| - 1], oldest) + if w.at >= oldest then w.value else 0.0
  }

  ghost function ReadTotal(log: seq<Write>, bucket: int, ttl: int, window: int, now: int): real
    requires bucket > 0
  {
    WindowSum(Present(Run(log, bucket, ttl), now), BucketEpoch(now, bucket) - window)
  }

  ghost predicate WrittenBy(log: seq<Write>, now: int) {
    Ordered(log) && forall i :: 0 <= i < |log| ==> log[i].at <= now
  }

  lemma {:induction false} OldWritesOutside(log: seq<Write>, cutoff: int, bucket: int)
    requires bucket > 0 && forall i :: 0 <= i < |log| ==> log[i].at < cutoff
    ensures LogSum(log, cutoff, bucket) == 0.0
  {
    if log != [] {
      OldWritesOutside(log[..|log| - 1], cutoff, bucket);
    }
  }

  /** What Redis still shows at `now` sums to the log over any window younger than the time to live:
      an expiry, before a write or before the read, only ever took writes older than the window. */
  lemma {:induction false} ShownAgrees(log: seq<Write>, bucket: int, ttl: int, cutoff: int, now: int)
    requires bucket > 0 && WrittenBy(log, now) && now - ttl < cutoff
    ensures WindowSum(Present(Run(log, bucket, ttl), now), cutoff) == LogSum(log, cutoff, bucket)
  {
    hide BucketEpoch;
    if log != [] {
      var init, w := log[..|log| - 1], log[|log| - 1];
      if now < w.at + ttl {
        ShownAgrees(init, bucket, ttl, cutoff, w.at);
        IncrementedSum(Present(Run(init, bucket, ttl), w.at), BucketEpoch(w.at, bucket), w.value, cutoff);
      } else {
        OldWritesOutside(log, cutoff, bucket);
      }
    }
  }

  lemma MulNonNegative(x: int, b: int)
    requires x >= 0 && b > 0
    ensures x * b >= 0
  {
  }

  lemma MulAdds(x: int, y: int, b: int)
    ensures (x + y) * b == x * b + y * b
  {
  }

  lemma MulApart(x: int, y: int, b: int)
    requires x < y && b > 0
    ensures x * b + b <= y * b
  {
    MulNonNegative(y - x - 1, b);
    MulAdds(x, y - x, b);
    MulAdds(1, y - x - 1, b);
  }

  lemma EpochOf(m: int, now: int, bucket: int)
    requires bucket > 0 && m * bucket <= now < m * bucket + bucket
    ensures BucketEpoch(now, bucket) == m * bucket
  {
    if now / bucket < m {
      MulApart(now / bucket, m, bucket);
    } else if m < now / bucket {
      MulApart(m, now / bucket, bucket);
    }
  }

  /** Every field of the hash is the start of a bucket. */
  lemma {:induction false} FieldsAreEpochs(log: seq<Write>, bucket: int, ttl: int, k: int)
    requires bucket > 0 && k in Run(log, bucket, ttl).hash
    ensures exists at :: k == BucketEpoch(at, bucket)
  {
    var init, w := log[..|log| - 1], log[|log| - 1];
    if k != BucketEpoch(w.at, bucket) {
      FieldsAreEpochs(init, bucket, ttl, k);
    }
  }

  /** A bucket starts at or after the cutoff of a window exactly if it starts at or after the cutoff of
      the window cut down to whole buckets. */
  lemma WholeBucketsDecide(at: int, now: int, window: int, bucket: int)
    requires bucket > 0
    ensures BucketEpoch(at, bucket) >= BucketEpoch(now, bucket) - window
            <==> BucketEpoch(at, bucket) >= BucketEpoch(now, bucket) - BucketEpoch(window, bucket)
  {
    var a, n, w := at / bucket, now / bucket, window / bucket;
    if a < n - w {
      MulApart(a, n - w, bucket);
    }
    MulAdds(n - w, w, bucket);
    if n - w <= a {
      MulNonNegative(a - (n - w), bucket);
      MulAdds(n - w, a - (n - w), bucket);
    }
  }

  lemma {:induction false} SameLogSum(log: seq<Write>, now: int, window: int, bucket: int)
    requires bucket > 0
    ensures LogSum(log, BucketEpoch(now, bucket) - window, bucket)
            == LogSum(log, BucketEpoch(now, bucket) - BucketEpoch(window, bucket), bucket)
  {
    hide BucketEpoch;
    if log != [] {
      SameLogSum(log[..|log| - 1], now, window, bucket);
      WholeBucketsDecide(log[|log| - 1].at, now, window, bucket);
    }
  }

  lemma SameReadTotal(log: seq<Write>, bucket: int, ttl: int, window: int, now: int)
    requires bucket > 0
    ensures ReadTotal(log, bucket, ttl, window, now) == ReadTotal(log, bucket, ttl, BucketEpoch(window, bucket), now)
  {
    hide BucketEpoch;
    var shown := Present(Run(log, bucket, ttl), now);
    var cutoff, whole := BucketEpoch(now, bucket) - window, BucketEpoch(now, bucket) - BucketEpoch(window, bucket);
    forall k | k in shown ensures k >= cutoff <==> k >= whole {
      FieldsAreEpochs(log, bucket, ttl, k);
      var at :| k == BucketEpoch(at, bucket);
      WholeBucketsDecide(at, now, window, bucket);
    }
    assert From(shown.Keys, cutoff) == From(shown.Keys, whole);
  }

  /** With room for one bucket between the whole buckets of the window and the time to live, every read
      is the log's sum over the buckets of the window. */
  lemma WindowAgrees(log: seq<Write>, bucket: int, ttl: int, window: int, now: int)
    requires bucket > 0 && WrittenBy(log, now) && BucketEpoch(window, bucket) + bucket <= ttl
    ensures ReadTotal(log, bucket, ttl, window, now) == LogSum(log, BucketEpoch(now, bucket) - window, bucket)
  {
    SameReadTotal(log, bucket, ttl, window, now);
    SameLogSum(log, now, window, bucket);
    ShownAgrees(log, bucket, ttl, BucketEpoch(now, bucket) - BucketEpoch(window, bucket), now);
  }

  ghost predicate ReadsAreExact(bucket: int, ttl: int, window: int)
    requires bucket > 0
  {
    forall log: seq<Write>, now: int :: WrittenBy(log, now) ==>
      ReadTotal(log, bucket, ttl, window, now) == LogSum(log, BucketEpoch(now, bucket) - window, bucket)
  }

  /** That room is exactly what is needed, for every window: a window that fits the time to live by less
      than one bucket, which raises no warning, can lose a whole series at once. */
  lemma ExactIff(bucket: int, ttl: int, window: int)
    requires bucket > 0 && window >= 0
    ensures ReadsAreExact(bucket, ttl, window) <==> BucketEpoch(window, bucket) + bucket <= ttl
  {
    if BucketEpoch(window, bucket) + bucket <= ttl {
      forall log: seq<Write>, now: int | WrittenBy(log, now)
        ensures ReadTotal(log, bucket, ttl, window, now) == LogSum(log, BucketEpoch(now, bucket) - window, bucket)
      {
        WindowAgrees(log, bucket, ttl, window, now);
      }
    } else {
      LosesASeries(bucket, ttl, window);
    }
  }

  lemma LosesASeries(bucket: int, ttl: int, window: int)
    requires bucket > 0 && window >= 0 && BucketEpoch(window, bucket) + bucket > ttl
    ensures !ReadsAreExact(bucket, ttl, window)
  {
    var whole := BucketEpoch(window, bucket);
    var log, now := [Write(0, 1.0)], if ttl < whole then whole else ttl;
    EpochOf(window / bucket, now, bucket);
    EpochOf(0, 0, bucket);
    if window / bucket < 0 {
      MulApart(window / bucket, 0, bucket);
    }
    hide BucketEpoch;
    assert log[..0] == [];
    assert Present(Run(log, bucket, ttl), now) == map[];
    assert ReadTotal(log, bucket, ttl, window, now) == 0.0;
    assert LogSum(log, whole - window, bucket) == 1.0;
    assert WrittenBy(log, now);
  }

  ghost predicate NonNegative(log: seq<Write>) {
    forall i :: 0 <= i < |log| ==> log[i].value >= 0.0
  }

  /** The buckets of the window cover its last `window` units exactly when the bucket divides it. */
  lemma CoversIff(bucket: int, window: int)
    requires bucket > 0 && window >= 0
    ensures (forall at, now :: now - window <= at <= now ==>
        BucketEpoch(at, bucket) >= BucketEpoch(now, bucket) - window)
            <==> Divides(bucket, window)
  {
    if Divides(bucket, window) {
      forall at, now | now - window <= at <= now ensures BucketEpoch(at, bucket) >= BucketEpoch(now, bucket) - window {
        Shifted(now, window, bucket);
        Monotone(now - window, at, bucket);
      }
    } else {
      EpochOf(0, 0, bucket);
      if BucketEpoch(-window, bucket) == -window {
        MulAdds(-window / bucket, -(-window / bucket), bucket);
        EpochOf(-(-window / bucket), window, bucket);
        assert false;
      }
      assert 0 - window <= -window <= 0 && BucketEpoch(-window, bucket) < BucketEpoch(0, bucket) - window;
    }
  }

  lemma Monotone(a: int, b: int, bucket: int)
    requires bucket > 0 && a <= b
    ensures BucketEpoch(a, bucket) <= BucketEpoch(b, bucket)
  {
    if b / bucket < a / bucket {
      MulApart(b / bucket, a / bucket, bucket);
    }
    if a / bucket < b / bucket {
      MulApart(a / bucket, b / bucket, bucket);
    }
  }

  lemma Shifted(now: int, window: int, bucket: int)
    requires bucket > 0 && Divides(bucket, window)
    ensures BucketEpoch(now - window, bucket) == BucketEpoch(now, bucket) - window
  {
    MulAdds(now / bucket - window / bucket, window / bucket, bucket);
    EpochOf(now / bucket - window / bucket, now - window, bucket);
  }

  /** With non-negative values the log's bucket sum lies between the true sums over the last `window` and
      over less than one bucket more. */
  lemma {:induction false} BucketSumBetween(log: seq<Write>, bucket: int, window: int, now: int)
    requires bucket > 0 && window >= 0 && Divides(bucket, window) && NonNegative(log) && WrittenBy(log, now)
    ensures TrueSum(log, now - window)
            <= LogSum(log, BucketEpoch(now, bucket) - window, bucket)
            <= TrueSum(log, now - window - bucket + 1)
  {
    if log != [] {
      BucketSumBetween(log[..|log| - 1], bucket, window, now);
      CoversIff(bucket, window);
    }
  }

  /** What a reader gets, for every log: between the true totals of the last `window` and of less than
      `window + bucket`. */
  lemma ReadBetween(log: seq<Write>, bucket: int, ttl: int, window: int, now: int)
    requires bucket > 0 && window >= 0 && Divides(bucket, window) && window + bucket <= ttl
    requires NonNegative(log) && WrittenBy(log, now)
    ensures TrueSum(log, now - window) <= ReadTotal(log, bucket, ttl, window, now)
        <= TrueSum(log, now - window - bucket + 1)
  {
    WindowAgrees(log, bucket, ttl, window, now);
    BucketSumBetween(log, bucket, window, now);
  }
}
