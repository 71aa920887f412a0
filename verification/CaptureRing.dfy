/** The event ring of a capture session: an atomic script appends a batch and evicts the oldest
    entries until the ring fits both its count and its byte budget. */
module CaptureRing {
  import opened RedisLists

  /** A serialised ring entry; only its length in bytes matters here. */
  datatype Entry = Entry(id: nat, bytes: nat)

  datatype Limits = Limits(size: nat, bytes: nat)

  function Bytes(entries: seq<Entry>): (r: nat)
    ensures |entries| == 1 ==> r == entries[0].bytes
  {
    if entries == [] then 0 else entries[0].bytes + Bytes(entries[1..])
  }

  predicate Fits(list: seq<Entry>, limits: Limits) {
    |list| <= limits.size && Bytes(list) <= limits.bytes
  }

  /** The longest prefix of a history, newest first, that fits both limits. */
  ghost predicate LongestFit(ring: seq<Entry>, newest: seq<Entry>, limits: Limits) {
    && ring <= newest
    && Fits(ring, limits)
    && (|ring| < |newest| ==> !Fits(newest[..|ring| + 1], limits))
  }

  class Ring {
    var events: seq<Entry>  // newest first
    var eventCount: nat
    var bytesUsed: int
    var outcomes: multiset<string>  // one counter per outcome
    const limits: Limits
    ghost var history: seq<Entry>  // everything ever appended, newest first

    ghost predicate Valid()
      reads this
    {
      && LongestFit(events, history, limits)
      && bytesUsed == Bytes(events)
      && eventCount == |history| == |outcomes|
    }

    constructor (limits: Limits)
      ensures Valid() && history == [] && this.limits == limits
    {
      this.limits := limits;
      events, eventCount, bytesUsed, outcomes, history := [], 0, 0, multiset{}, [];
    }

    /** One run of the append script. The contract determines the whole new state: LongestFit has one
        solution for a given history. */
    method Append(batch: seq<Entry>, outcome: string)
      requires Valid()
      modifies this
      ensures Valid()
      ensures history == Pushed(old(history), batch)
      ensures Reverse(history) == Reverse(old(history)) + batch
      ensures outcomes == old(outcomes)[outcome := old(outcomes)[outcome] + |batch|]
      ensures eventCount == old(eventCount) + |batch| && bytesUsed == Bytes(events)
      ensures events <= history && |events| <= limits.size && Bytes(events) <= limits.bytes
      ensures |events| < |history| ==>
                |events| == limits.size || Bytes(history[..|events| + 1]) > limits.bytes
    {
      hide Reverse;
      hide LongestFit;
      var n, added := 0, 0;
      ghost var was := events;
      while n < |batch|
        invariant 0 <= n <= |batch|
        invariant Pushed(events, batch[n..]) == Pushed(was, batch)
        invariant Bytes(events) == Bytes(was) + added
        modifies this`events
      {
        events := [batch[n]] + events;
        added := added + batch[n].bytes;
        assert batch[n..][1..] == batch[n + 1..];
        n := n + 1;
      }
      eventCount := eventCount + n;
      outcomes := outcomes[outcome := outcomes[outcome] + n];
      bytesUsed := bytesUsed + added;
      ghost var full := events;
      EvictByCount(full);
      EvictByBytes(full);
      history := Pushed(history, batch);
      PushedLength(old(history), batch);
      PushedReversed(old(history), batch);
      Refit(old(history), was, batch, events, limits);
      FitMeans(events, history, limits);
    }

    /** The first eviction loop: at most `size` entries. */
    method EvictByCount(ghost full: seq<Entry>)
      requires events == full && bytesUsed == Bytes(events)
      modifies this`events, this`bytesUsed
      ensures events <= full && bytesUsed == Bytes(events) && |events| <= limits.size
      ensures |events| < |full| ==> |events| == limits.size
    {
      while |events| > limits.size
        invariant events <= full && bytesUsed == Bytes(events)
        invariant |events| < |full| ==> |events| >= limits.size
      {
        PopOldest();
      }
    }

    /** The second eviction loop: at most `bytes` resident bytes. */
    method EvictByBytes(ghost full: seq<Entry>)
      requires events <= full && bytesUsed == Bytes(events) && |events| <= limits.size
      requires |events| < |full| ==> |events| == limits.size
      modifies this`events, this`bytesUsed
      ensures LongestFit(events, full, limits) && bytesUsed == Bytes(events)
    {
      while bytesUsed > limits.bytes
        invariant events <= full && bytesUsed == Bytes(events) && |events| <= limits.size
        invariant |events| < |full| ==> !Fits(full[..|events| + 1], limits)
        decreases |events|
      {
        assert full[..|events|] == events;
        PopOldest();
      }
    }

    /** RPOP and the matching decrement of the byte counter. */
    method PopOldest()
      requires events != [] && bytesUsed == Bytes(events)
      modifies this`events, this`bytesUsed
      ensures events == old(events)[..|old(events)| - 1] && bytesUsed == Bytes(events)
    {
      var popped := events[|events| - 1];
      BytesSplit(events, |events| - 1);
      assert events[|events| - 1..] == [popped];
      events := events[..|events| - 1];
      bytesUsed := bytesUsed - popped.bytes;
    }
  }

  lemma {:induction false} BytesSplit(entries: seq<Entry>, k: nat)
    requires k <= |entries|
    ensures Bytes(entries) == Bytes(entries[..k]) + Bytes(entries[k..])
  {
    if k == 0 {
      assert entries[0..] == entries;
    } else {
      BytesSplit(entries[1..], k - 1);
      assert entries[..k] == [entries[0]] + entries[1..][..k - 1];
      assert entries[1..][k - 1..] == entries[k..];
    }
  }

  lemma FitMeans(ring: seq<Entry>, newest: seq<Entry>, limits: Limits)
    requires LongestFit(ring, newest, limits)
    ensures ring <= newest && |ring| <= limits.size && Bytes(ring) <= limits.bytes
    ensures |ring| < |newest| ==> |ring| == limits.size || Bytes(newest[..|ring| + 1]) > limits.bytes
  {
  }

  /** Appending to a ring that already forgot its oldest entries gives what appending to the full
      history and evicting afresh would give. */
  lemma Refit(history: seq<Entry>, ring: seq<Entry>, batch: seq<Entry>, after: seq<Entry>, limits: Limits)
    requires LongestFit(ring, history, limits) && LongestFit(after, Pushed(ring, batch), limits)
    ensures LongestFit(after, Pushed(history, batch), limits)
  {
    PushedOnTop(ring, batch);
    PushedOnTop(history, batch);
    var top := Pushed([], batch);
    assert history == ring + history[|ring|..];
    assert top + history == top + ring + history[|ring|..];
    if after == top + ring && |ring| < |history| {
      var longer := history[..|ring| + 1];
      assert (top + history)[..|after| + 1] == top + longer;
      BytesSplit(top + longer, |top|);
      assert (top + longer)[..|top|] == top && (top + longer)[|top|..] == longer;
    } else if |after| < |top + ring| {
      assert (top + history)[..|after| + 1] == (top + ring)[..|after| + 1];
    }
  }

  /** A history has one longest fit, so the state of the ring is a function of its history. */
  lemma LongestFitIsUnique(one: seq<Entry>, two: seq<Entry>, newest: seq<Entry>, limits: Limits)
    requires LongestFit(one, newest, limits) && LongestFit(two, newest, limits)
    ensures one == two
  {
    if |one| < |two| {
      assert newest[..|one| + 1] == two[..|one| + 1];
      FitsPrefix(two, |one| + 1, limits);
    } else if |two| < |one| {
      assert newest[..|two| + 1] == one[..|two| + 1];
      FitsPrefix(one, |two| + 1, limits);
    }
  }

  lemma FitsPrefix(list: seq<Entry>, k: nat, limits: Limits)
    requires k <= |list| && Fits(list, limits)
    ensures Fits(list[..k], limits)
  {
    BytesSplit(list, k);
  }

  /** So how the appended entries are split into batches does not matter: two appends leave the same
      history, and with it the same ring, as one. */
  lemma SplittingDoesNotMatter(history: seq<Entry>, first: seq<Entry>, second: seq<Entry>,
                               twice: seq<Entry>, once: seq<Entry>, limits: Limits)
    requires LongestFit(twice, Pushed(Pushed(history, first), second), limits)
    requires LongestFit(once, Pushed(history, first + second), limits)
    ensures twice == once
  {
    PushedInTwo(history, first, second);
    LongestFitIsUnique(twice, once, Pushed(history, first + second), limits);
  }

  // ---- Reading the ring in pages ----

  const MAX_RING_SIZE := 20000

  function Clamp(n: int): (r: nat)
    ensures 1 <= r <= MAX_RING_SIZE
    ensures 1 <= n <= MAX_RING_SIZE ==> r == n
    ensures n < 1 ==> r == 1
    ensures n > MAX_RING_SIZE ==> r == MAX_RING_SIZE
  {
    if n < 1 then 1 else if n > MAX_RING_SIZE then MAX_RING_SIZE else n
  }

  lemma PageStep(list: seq<Entry>, start: nat, stop: nat, decodes: Entry -> bool)
    requires start <= |list| && start <= stop
    ensures var raw := Range(list, start, stop);
            && start + |raw| <= |list|
            && (|raw| <= stop - start ==> start + |raw| == |list|)
            && (|raw| > stop - start ==> start + |raw| == stop + 1)
            && Kept(list[..start + |raw|], decodes) == Kept(list[..start], decodes) + Kept(raw, decodes)
  {
    var raw := Range(list, start, stop);
    assert list[..start + |raw|] == list[..start] + raw;
    KeptSum(list[..start], raw, decodes);
  }

  /** The export reads page by page and yields, in order and once each, the readable entries among
      the newest `maxEvents`, whatever the page size. */
  method IterEvents(list: seq<Entry>, pageSize: int, maxEvents: int, decodes: Entry -> bool) returns (out: seq<Entry>)
    ensures out == Kept(if |list| <= Clamp(maxEvents) then list else list[..Clamp(maxEvents)], decodes)
  {
    var page, max := Clamp(pageSize), Clamp(maxEvents);
    var start: nat := 0;
    out := [];
    assert list[..0] == [];
    assert out == Kept(list[..0], decodes);
    hide *;
    while start < max
      invariant start <= max && start <= |list|
      invariant out == Kept(list[..start], decodes)
    {
      var stop := (if start + page < max then start + page else max) - 1;
      var raw := Range(list, start, stop);
      PageStep(list, start, stop, decodes);
      if raw == [] {
        break;
      }
      out := out + Kept(raw, decodes);
      if |raw| <= stop - start {
        start := start + |raw|;
        break;
      }
      start := stop + 1;
    }
    assert start == |list| ==> list[..start] == list;
  }
}
