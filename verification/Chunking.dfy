/** The greedy splitter of the dispatcher: it cuts a batch into consecutive chunks that a
    destination can take in one send, closing a chunk by item count or by bytes. */
module Chunking {

  /** What a destination takes in one send; a byte limit of zero or less is switched off. */
  datatype Limits = Limits(maxItems: int, maxBytes: int)

  function Flatten<E>(chunks: seq<seq<E>>): seq<E> {
    if chunks == [] then [] else chunks[0] + Flatten(chunks[1..])
  }

  function Bytes<E>(events: seq<E>, size: E -> nat): nat {
    if events == [] then 0 else Bytes(events[..|events| - 1], size) + size(events[|events| - 1])
  }

  /** A chunk the destination accepts: a single event always passes, however large. */
  predicate Fits<E>(chunk: seq<E>, limits: Limits, size: E -> nat) {
    |chunk| <= 1 || (|chunk| <= limits.maxItems && (limits.maxBytes > 0 ==> Bytes(chunk, size) <= limits.maxBytes))
  }

  ghost predicate AllFit<E>(chunks: seq<seq<E>>, limits: Limits, size: E -> nat) {
    forall i :: 0 <= i < |chunks| ==> Fits(chunks[i], limits, size)
  }

  /** No chunk could also have taken the first event of the chunk after it. */
  ghost predicate Saturated<E>(chunks: seq<seq<E>>, limits: Limits, size: E -> nat) {
    && (forall i :: 0 <= i < |chunks| ==> chunks[i] != [])
    && (forall i :: 0 <= i < |chunks| - 1 ==> !Fits(chunks[i] + [chunks[i + 1][0]], limits, size))
  }

  ghost predicate GreedySplit<E>(chunks: seq<seq<E>>, batch: seq<E>, limits: Limits, size: E -> nat) {
    Flatten(chunks) == batch && AllFit(chunks, limits, size) && Saturated(chunks, limits, size)
  }

  /** A chunk is followed by another because it is full, or the next event would take it over the bytes. */
  ghost predicate ClosedByLimit<E>(chunks: seq<seq<E>>, i: nat, limits: Limits, size: E -> nat)
    requires i < |chunks| - 1
  {
    && chunks[i] != [] && chunks[i + 1] != []
    && (|| |chunks[i]| >= limits.maxItems
        || (limits.maxBytes > 0 && Bytes(chunks[i], size) + size(chunks[i + 1][0]) > limits.maxBytes))
  }

  method ChunkBatch<E>(batch: seq<E>, limits: Limits, size: E -> nat) returns (chunks: seq<seq<E>>)
    ensures batch == [] ==> chunks == [[]]
    ensures batch != [] ==> GreedySplit(chunks, batch, limits, size)
    ensures Flatten(chunks) == batch
    ensures forall i :: 0 <= i < |chunks| ==> |chunks[i]| <= 1 || |chunks[i]| <= limits.maxItems
    ensures limits.maxBytes > 0 ==>
              forall i :: 0 <= i < |chunks| ==> |chunks[i]| <= 1 || Bytes(chunks[i], size) <= limits.maxBytes
    ensures forall i :: 0 <= i < |chunks| - 1 ==> ClosedByLimit(chunks, i, limits, size)
  {
    hide *;
    if batch == [] {
      EmptyChunk<E>();
      return [[]];
    }
    var useBytes := limits.maxBytes > 0;
    chunks := [];
    var cur: seq<E> := [];
    var curBytes := 0;
    BytesSnoc([], batch[0], size);
    for i := 0 to |batch|
      invariant i > 0 <==> cur != []
      invariant useBytes ==> curBytes == Bytes(cur, size)
      invariant cur == [] ==> chunks == []
      invariant cur != [] ==> GreedySplit(chunks + [cur], batch[..i], limits, size)
    {
      var ev := batch[i];
      var evBytes := if useBytes then size(ev) else 0;
      BytesSnoc(cur, ev, size);
      BytesSnoc([], ev, size);
      assert [] + [ev] == [ev];
      var full := cur != [] && (|cur| >= limits.maxItems || (useBytes && curBytes + evBytes > limits.maxBytes));
      if cur == [] {
        FirstChunk(ev, limits, size);
        assert batch[..i] == [] && [] + [[ev]] == [[ev]];
      } else if full {
        FullIff(cur, ev, limits, size);
        CloseChunk(chunks, cur, ev, batch[..i], limits, size);
      } else {
        FullIff(cur, ev, limits, size);
        GrowChunk(chunks, cur, ev, batch[..i], limits, size);
      }
      assert batch[..i + 1] == batch[..i] + [ev];
      if full {
        chunks := chunks + [cur];
        cur := [];
        curBytes := 0;
      }
      cur := cur + [ev];
      curBytes := curBytes + evBytes;
    }
    chunks := chunks + [cur];
    assert batch[..|batch|] == batch;
    SplitLimits(chunks, batch, limits, size);
  }

  lemma EmptyChunk<E>()
    ensures Flatten<E>([[]]) == []
  {
    assert Flatten<E>([[]]) == [] + Flatten<E>([]);
  }

  /** What a greedy split means for the two limits. */
  lemma SplitLimits<E>(chunks: seq<seq<E>>, batch: seq<E>, limits: Limits, size: E -> nat)
    requires GreedySplit(chunks, batch, limits, size)
    ensures Flatten(chunks) == batch
    ensures forall i :: 0 <= i < |chunks| ==> |chunks[i]| <= 1 || |chunks[i]| <= limits.maxItems
    ensures limits.maxBytes > 0 ==>
              forall i :: 0 <= i < |chunks| ==> |chunks[i]| <= 1 || Bytes(chunks[i], size) <= limits.maxBytes
    ensures forall i :: 0 <= i < |chunks| - 1 ==> ClosedByLimit(chunks, i, limits, size)
  {
    forall i | 0 <= i < |chunks| - 1 ensures ClosedByLimit(chunks, i, limits, size) {
      BytesSnoc(chunks[i], chunks[i + 1][0], size);
    }
    hide Bytes;
    hide Flatten;
  }

  lemma BytesSnoc<E>(events: seq<E>, ev: E, size: E -> nat)
    ensures Bytes(events + [ev], size) == Bytes(events, size) + size(ev)
    ensures Bytes<E>([], size) == 0
  {
    assert (events + [ev])[..|events|] == events;
  }

  /** When the next event does not fit. */
  lemma FullIff<E>(cur: seq<E>, ev: E, limits: Limits, size: E -> nat)
    requires cur != []
    ensures !Fits(cur + [ev], limits, size) <==>
            || |cur| >= limits.maxItems
            || (limits.maxBytes > 0 && Bytes(cur, size) + size(ev) > limits.maxBytes)
  {
    BytesSnoc(cur, ev, size);
  }

  lemma FirstChunk<E>(ev: E, limits: Limits, size: E -> nat)
    ensures GreedySplit([[ev]], [ev], limits, size)
  {
    assert Flatten([[ev]]) == [ev] + Flatten([]);
  }

  lemma GrowChunk<E>(chunks: seq<seq<E>>, cur: seq<E>, ev: E, done: seq<E>, limits: Limits, size: E -> nat)
    requires GreedySplit(chunks + [cur], done, limits, size) && Fits(cur + [ev], limits, size)
    ensures GreedySplit(chunks + [cur + [ev]], done + [ev], limits, size)
  {
    FlattenSnoc(chunks, cur);
    FlattenSnoc(chunks, cur + [ev]);
    var was, now := chunks + [cur], chunks + [cur + [ev]];
    assert forall i :: 0 <= i < |chunks| ==> now[i] == was[i];
    assert was[|chunks|] == cur && now[|chunks|] == cur + [ev];
    assert cur != [] && (cur + [ev])[0] == cur[0];
  }

  lemma CloseChunk<E>(chunks: seq<seq<E>>, cur: seq<E>, ev: E, done: seq<E>, limits: Limits, size: E -> nat)
    requires GreedySplit(chunks + [cur], done, limits, size) && !Fits(cur + [ev], limits, size)
    ensures GreedySplit(chunks + [cur] + [[ev]], done + [ev], limits, size)
  {
    FlattenSnoc(chunks + [cur], [ev]);
    var was, now := chunks + [cur], chunks + [cur] + [[ev]];
    assert forall i :: 0 <= i < |was| ==> now[i] == was[i];
    assert was[|chunks|] == cur && now[|was|] == [ev];
  }

  lemma {:induction false} FlattenSnoc<E>(chunks: seq<seq<E>>, last: seq<E>)
    ensures Flatten(chunks + [last]) == Flatten(chunks) + last
  {
    if chunks == [] {
      assert Flatten([last]) == last + Flatten([]);
    } else {
      FlattenSnoc(chunks[1..], last);
      assert (chunks + [last])[1..] == chunks[1..] + [last];
    }
  }

  lemma {:induction false} BytesOfPart<E>(events: seq<E>, lo: nat, hi: nat, size: E -> nat)
    requires lo <= hi <= |events|
    ensures Bytes(events[lo..hi], size) <= Bytes(events, size)
    decreases |events|
  {
    if hi < |events| {
      BytesOfPart(events[..|events| - 1], lo, hi, size);
      assert events[..|events| - 1][lo..hi] == events[lo..hi];
    } else if lo < hi {
      BytesOfPart(events[..|events| - 1], lo, hi - 1, size);
      assert events[lo..hi][..hi - lo - 1] == events[lo..hi - 1] == events[..|events| - 1][lo..hi - 1];
    }
  }

  /** Whatever is part of an acceptable chunk is acceptable. */
  lemma PartFits<E>(chunk: seq<E>, lo: nat, hi: nat, limits: Limits, size: E -> nat)
    requires lo <= hi <= |chunk| && Fits(chunk, limits, size)
    ensures Fits(chunk[lo..hi], limits, size)
  {
    BytesOfPart(chunk, lo, hi, size);
  }

  lemma NoOvertaking<E>(g: seq<E>, rest: seq<seq<E>>, o: seq<E>, other: seq<seq<E>>, behind: seq<E>, limits: Limits,
      size: E -> nat)
    requires Saturated([g] + rest, limits, size) && Fits(o, limits, size)
    requires o + Flatten(other) == behind + g + Flatten(rest)
    ensures |o| <= |behind| + |g|
  {
    if |o| > |behind| + |g| {
      var cut := |behind| + |g| + 1;
      assert ([g] + rest)[0] == g && forall i :: 0 <= i < |rest| ==> ([g] + rest)[i + 1] == rest[i];
      var next := rest[0][0];
      assert Flatten(rest)[0] == next;
      assert o[|behind|..cut] == (behind + g + Flatten(rest))[|behind|..cut] == g + [next];
      PartFits(o, |behind|, cut, limits, size);
      assert false;
    }
  }

  /** The greedy split of what is left needs no more chunks than any other acceptable split of
      at least as much: it stays ahead of every competitor, chunk by chunk. */
  lemma {:induction false} GreedyStaysAhead<E>(greedy: seq<seq<E>>, other: seq<seq<E>>, behind: seq<E>, limits: Limits,
      size: E -> nat)
    requires Saturated(greedy, limits, size) && AllFit(other, limits, size)
    requires Flatten(other) == behind + Flatten(greedy)
    ensures |greedy| <= |other|
    decreases |other|
  {
    if greedy != [] && other != [] {
      var g, o := greedy[0], other[0];
      assert behind + Flatten(greedy) == behind + g + Flatten(greedy[1..]);
      assert greedy == [g] + greedy[1..];
      assert Saturated(greedy[1..], limits, size);
      assert Fits(o, limits, size) && AllFit(other[1..], limits, size);
      assert o + Flatten(other[1..]) == behind + g + Flatten(greedy[1..]);
      hide *;
      NoOvertaking(g, greedy[1..], o, other[1..], behind, limits, size);
      var lead := (behind + g)[|o|..];
      assert Flatten(other[1..]) == (o + Flatten(other[1..]))[|o|..];
      assert (behind + g + Flatten(greedy[1..]))[|o|..] == lead + Flatten(greedy[1..]);
      GreedyStaysAhead(greedy[1..], other[1..], lead, limits, size);
    }
  }

  /** No split of a non-empty batch into consecutive acceptable chunks uses fewer chunks. */
  lemma GreedyIsOptimal<E>(batch: seq<E>, greedy: seq<seq<E>>, other: seq<seq<E>>, limits: Limits, size: E -> nat)
    requires GreedySplit(greedy, batch, limits, size)
    requires Flatten(other) == batch && AllFit(other, limits, size)
    ensures |greedy| <= |other|
  {
    assert [] + Flatten(greedy) == batch;
    GreedyStaysAhead(greedy, other, [], limits, size);
  }

  /** The greedy split is the only one, so the contract of ChunkBatch leaves nothing open. */
  lemma {:induction false} GreedyIsUnique<E>(batch: seq<E>, one: seq<seq<E>>, two: seq<seq<E>>, limits: Limits,
      size: E -> nat)
    requires GreedySplit(one, batch, limits, size) && GreedySplit(two, batch, limits, size)
    ensures one == two
    decreases |one|
  {
    if one == [] || two == [] {
      assert one == two;
    } else {
      FirstChunkNoLonger(batch, one, two, limits, size);
      FirstChunkNoLonger(batch, two, one, limits, size);
      assert one[0] == batch[..|one[0]|] == two[0];
      var rest := batch[|one[0]|..];
      assert Flatten(one[1..]) == rest == Flatten(two[1..]);
      GreedyIsUnique(rest, one[1..], two[1..], limits, size);
      assert one == [one[0]] + one[1..] && two == [two[0]] + two[1..];
    }
  }

  lemma FirstChunkNoLonger<E>(batch: seq<E>, one: seq<seq<E>>, two: seq<seq<E>>, limits: Limits, size: E -> nat)
    requires one != [] && two != []
    requires GreedySplit(one, batch, limits, size) && GreedySplit(two, batch, limits, size)
    ensures |two[0]| <= |one[0]|
  {
    if |two[0]| > |one[0]| {
      assert batch == one[0] + Flatten(one[1..]) == two[0] + Flatten(two[1..]);
      assert one[1..] != [];
      var next := one[1][0];
      assert Flatten(one[1..])[0] == next;
      assert two[0][0..|one[0]| + 1] == batch[..|one[0]| + 1] == one[0] + [next];
      PartFits(two[0], 0, |one[0]| + 1, limits, size);
      assert false;
    }
  }
}
