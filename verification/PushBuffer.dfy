/** The buffer between the push endpoint and the collector: a capped Redis list that drops its
    oldest entries when it overflows and is drained from the tail in chunks. */
module PushBuffer {
  import opened RedisLists

  /** A serialised event; `decodes` is false for a corrupted entry. */
  datatype Raw = Raw(id: nat, decodes: bool)

  /** How an entry left the buffer. */
  datatype Gone = Gone(item: Raw, drained: bool)

  const DRAIN_CHUNK: nat := 500

  function Items(gone: seq<Gone>): seq<Raw> {
    seq(|gone|, i requires 0 <= i < |gone| => gone[i].item)
  }

  function Marked(items: seq<Raw>, drained: bool): seq<Gone> {
    seq(|items|, i requires 0 <= i < |items| => Gone(items[i], drained))
  }

  /** The entries that left by being drained (or by being dropped), in the order they left. */
  function Left(gone: seq<Gone>, drained: bool): seq<Raw> {
    if gone == [] then []
    else
      var init, g := gone[..|gone| - 1], gone[|gone| - 1];
      if g.drained == drained then Left(init, drained) + [g.item] else Left(init, drained)
  }

  predicate Decodes(x: Raw) {
    x.decodes
  }

  function Overflow(lengthAfterPush: nat, maxLen: int): (r: nat)
    ensures maxLen >= 0 ==> r <= lengthAfterPush
  {
    if lengthAfterPush > maxLen then lengthAfterPush - maxLen else 0
  }

  /** What has left and what is resident make up the push history, in push order. */
  ghost predicate Accounted(history: seq<Raw>, gone: seq<Gone>, list: seq<Raw>) {
    history == Items(gone) + Reverse(list)
  }

  class Buffer {
    var list: seq<Raw>  // newest first
    const maxLen: int
    ghost var history: seq<Raw>  // everything pushed, in push order
    ghost var gone: seq<Gone>  // everything that left, in the order it left

    ghost predicate Valid()
      reads this
    {
      maxLen >= 1 && Accounted(history, gone, list)
    }

    constructor (maxLen: int)
      requires maxLen >= 1
      ensures Valid() && history == [] && gone == [] && this.maxLen == maxLen
    {
      this.maxLen := maxLen;
      list, history, gone := [], [], [];
    }

    /** LPUSH, LTRIM and the overflow the caller is told about, in one transaction. */
    method PushEvents(events: seq<Raw>) returns (accepted: nat, dropped: nat)
      requires Valid()
      modifies this
      ensures Valid() && history == old(history) + events && accepted == |events|
      ensures dropped == if events != [] && |old(list)| + |events| > maxLen then |old(list)| + |events| - maxLen else 0
      ensures events != [] ==> |list| <= maxLen
      ensures Reverse(list) == (Reverse(old(list)) + events)[dropped..]
      ensures gone == old(gone) + Marked((Reverse(old(list)) + events)[..dropped], false)
    {
      hide Accounted;
      hide Reverse;
      hide Pushed;
      hide Range;
      hide Marked;
      ghost var queue := Reverse(list) + events;
      if events == [] {
        NothingPushed(history, gone, queue);
        return 0, 0;
      }
      PushAccounted(history, gone, list, events, maxLen);
      list := Pushed(list, events);
      var lengthAfterPush := |list|;
      list := Range(list, 0, maxLen - 1);
      dropped := Overflow(lengthAfterPush, maxLen);
      accepted := |events|;
      gone := gone + Marked(queue[..dropped], false);
      history := history + events;
    }

    /** RPOP with a count: the oldest entries, oldest first. */
    method PopOldest(count: nat) returns (chunk: seq<Raw>)
      requires Valid() && count > 0
      modifies this`list, this`gone
      ensures Valid()
      ensures |chunk| == if |old(list)| < count then |old(list)| else count
      ensures chunk == Reverse(old(list))[..|chunk|] && Reverse(list) == Reverse(old(list))[|chunk|..]
      ensures gone == old(gone) + Marked(chunk, true)
    {
      var keep := if |list| > count then |list| - count else 0;
      PopAccounted(history, gone, list, keep);
      chunk := Reverse(list[keep..]);
      list := list[..keep];
      gone := gone + Marked(chunk, true);
    }

    /** What another writer does between two chunks of a drain. */
    method OtherPush(events: seq<Raw>)
      requires Valid()
      modifies this
      ensures Valid() && history == old(history) + events
      ensures Left(gone, true) == Left(old(gone), true)
    {
      ghost var queue, before := Reverse(list) + events, gone;
      var _, dropped := PushEvents(events);
      MarkedLeft(before, queue[..dropped], false);
    }

    /** One chunk of a drain: pop, then decode what can be decoded. */
    method DrainChunk(count: nat) returns (events: seq<Raw>, chunk: seq<Raw>)
      requires Valid() && count > 0
      modifies this`list, this`gone
      ensures Valid()
      ensures |chunk| == (if |old(list)| < count then |old(list)| else count)
      ensures Reverse(old(list)) == chunk + Reverse(list) && |old(list)| == |chunk| + |list|
      ensures Left(gone, true) == Left(old(gone), true) + chunk
      ensures events == Kept(chunk, Decodes)
    {
      chunk := PopOldest(count);
      MarkedLeft(old(gone), chunk, true);
      events := Kept(chunk, Decodes);
    }

    /** Drain up to `budget` events while other writers push: others[k] is what they push before the
        k-th chunk. Corrupted entries are skipped; the drain ends on an empty buffer or full budget,
        and what it took left in push order: undisturbed, it is the oldest part of the buffer. */
    method DrainEvents(budget: int, others: seq<seq<Raw>>) returns (out: seq<Raw>, ghost taken: seq<Raw>)
      requires Valid()
      modifies this
      ensures Valid()
      ensures Left(gone, true) == Left(old(gone), true) + taken
      ensures out == Kept(taken, Decodes)
      ensures forall x :: x in out <==> x in taken && x.decodes
      ensures budget >= 0 ==> |out| <= budget
      ensures |out| >= budget || list == []
      ensures others == [] ==> Reverse(old(list)) == taken + Reverse(list)
    {
      out, taken := [], [];
      var k := 0;
      assert Kept(taken, Decodes) == [];
      hide Reverse;
      hide Kept;
      hide Left;
      hide Accounted;
      hide Decodes;
      ghost var before, queue := Left(gone, true), Reverse(list);
      while |out| < budget
        invariant Valid()
        invariant Left(gone, true) == before + taken
        invariant out == Kept(taken, Decodes)
        invariant budget >= 0 ==> |out| <= budget
        invariant 0 <= k <= |others|
        invariant others == [] ==> queue == taken + Reverse(list)
        decreases |others| - k, |list|
      {
        if k < |others| {
          OtherPush(others[k]);
          k := k + 1;
        }
        var remaining := budget - |out|;
        var events, chunk := DrainChunk(if DRAIN_CHUNK < remaining then DRAIN_CHUNK else remaining);
        KeptSum(taken, chunk, Decodes);
        Associates(before, taken, chunk);
        Associates(taken, chunk, Reverse(list));
        taken := taken + chunk;
        out := out + events;
        if chunk == [] {
          break;
        }
      }
      DecodedMembers(taken);
    }
  }

  lemma {:induction false} DecodedMembers(items: seq<Raw>)
    ensures forall x :: x in Kept(items, Decodes) <==> x in items && x.decodes
  {
    if items != [] {
      var init, last := items[..|items| - 1], items[|items| - 1];
      DecodedMembers(init);
      assert items == init + [last];
    }
  }

  lemma Associates(a: seq<Raw>, b: seq<Raw>, c: seq<Raw>)
    ensures (a + b) + c == a + (b + c)
  {
  }

  lemma NothingPushed(history: seq<Raw>, gone: seq<Gone>, queue: seq<Raw>)
    ensures history + [] == history && queue[..0] == [] && queue[0..] == queue
    ensures gone + Marked([], false) == gone && gone + Marked([], true) == gone
    ensures forall list: seq<Raw> :: list + [] == list
  {
  }

  lemma TrimKeepsNewest(full: seq<Raw>, maxLen: int)
    requires maxLen >= 1
    ensures var kept := Range(full, 0, maxLen - 1);
            && |kept| <= |full| && kept == full[..|kept|] && |kept| <= maxLen
            && |full| - |kept| == Overflow(|full|, maxLen)
  {
  }

  /** A push in terms of the queue, oldest first: append, then drop what overflows from the front. */
  lemma PushAccounted(history: seq<Raw>, gone: seq<Gone>, list: seq<Raw>, events: seq<Raw>, maxLen: int)
    requires maxLen >= 1 && Accounted(history, gone, list)
    ensures var full := Pushed(list, events);
            var kept := Range(full, 0, maxLen - 1);
            var dropped := Overflow(|list| + |events|, maxLen);
            var queue := Reverse(list) + events;
            && |full| == |list| + |events| && |kept| == |full| - dropped <= maxLen
            && Reverse(full[|kept|..]) == queue[..dropped] && Reverse(kept) == queue[dropped..]
            && Accounted(history + events, gone + Marked(queue[..dropped], false), kept)
  {
    hide Reverse;
    hide Pushed;
    var full := Pushed(list, events);
    PushedLength(list, events);
    PushedReversed(list, events);
    TrimKeepsNewest(full, maxLen);
    ReverseCut(full, |Range(full, 0, maxLen - 1)|);
    var queue, dropped := Reverse(list) + events, Overflow(|list| + |events|, maxLen);
    MarkedItems(gone, queue[..dropped], false);
    assert queue == queue[..dropped] + queue[dropped..];
  }

  /** A chunk pop in terms of the queue: take from the front. */
  lemma PopAccounted(history: seq<Raw>, gone: seq<Gone>, list: seq<Raw>, keep: nat)
    requires keep <= |list| && Accounted(history, gone, list)
    ensures var chunk := Reverse(list[keep..]);
            && |chunk| == |list| - keep
            && chunk == Reverse(list)[..|chunk|] && Reverse(list[..keep]) == Reverse(list)[|chunk|..]
            && Accounted(history, gone + Marked(chunk, true), list[..keep])
  {
    hide Reverse;
    ReverseCut(list, keep);
    MarkedItems(gone, Reverse(list[keep..]), true);
  }

  lemma MarkedItems(gone: seq<Gone>, items: seq<Raw>, drained: bool)
    ensures Items(gone + Marked(items, drained)) == Items(gone) + items
  {
  }

  lemma LeftSnoc(gone: seq<Gone>, g: Gone, drained: bool)
    ensures Left(gone + [g], drained) == if g.drained == drained then Left(gone, drained) + [g.item]
        else Left(gone, drained)
  {
    assert (gone + [g])[..|gone|] == gone;
  }

  lemma {:induction false} MarkedLeft(gone: seq<Gone>, items: seq<Raw>, drained: bool)
    ensures Left(gone + Marked(items, drained), drained) == Left(gone, drained) + items
    ensures Left(gone + Marked(items, drained), !drained) == Left(gone, !drained)
    decreases |items|
  {
    hide Left;
    if items == [] {
      assert gone + Marked(items, drained) == gone;
    } else {
      var init, x := items[..|items| - 1], items[|items| - 1];
      MarkedLeft(gone, init, drained);
      var before := gone + Marked(init, drained);
      LeftSnoc(before, Gone(x, drained), drained);
      LeftSnoc(before, Gone(x, drained), !drained);
      assert gone + Marked(items, drained) == before + [Gone(x, drained)];
      assert items == init + [x];
    }
  }

  lemma {:induction false} LeftCounts(gone: seq<Gone>)
    ensures |Left(gone, true)| + |Left(gone, false)| == |gone|
  {
    if gone != [] {
      LeftCounts(gone[..|gone| - 1]);
    }
  }

  // ---- Every interleaving of pushes and chunk pops ----

  datatype Op = Push(events: seq<Raw>) | Pop(count: nat)

  /** The buffer with its history; `reported` is the sum of the drops its callers were told about. */
  datatype State = State(list: seq<Raw>, pushed: seq<Raw>, gone: seq<Gone>, reported: int)

  function Next(s: State, op: Op, maxLen: int): State {
    match op
    case Push(events) =>
      if events == [] then s
      else
        var full := Pushed(s.list, events);
        var kept := Range(full, 0, maxLen - 1);
        var lost := if |kept| <= |full| then Reverse(full[|kept|..]) else [];
        State(kept, s.pushed + events, s.gone + Marked(lost, false), s.reported + Overflow(|full|, maxLen))
    case Pop(count) =>
      var keep := if |s.list| > count then |s.list| - count else 0;
      s.(list := s.list[..keep], gone := s.gone + Marked(Reverse(s.list[keep..]), true))
  }

  function Run(ops: seq<Op>, maxLen: int): State {
    if ops == [] then State([], [], [], 0) else Next(Run(ops[..|ops| - 1], maxLen), ops[|ops| - 1], maxLen)
  }

  /** A push keeps the newest entries, as many as the cap allows, and reports how many of the oldest left. */
  lemma PushKeepsNewest(s: State, events: seq<Raw>, maxLen: int)
    requires maxLen >= 1 && events != []
    ensures var queue, after := Reverse(s.list) + events, Next(s, Push(events), maxLen);
            var dropped := if |queue| > maxLen then |queue| - maxLen else 0;
            && Reverse(after.list) == queue[dropped..]
            && after.gone == s.gone + Marked(queue[..dropped], false)
            && after.pushed == s.pushed + events && after.reported == s.reported + dropped
  {
    hide Reverse;
    hide Pushed;
    hide Marked;
    var full := Pushed(s.list, events);
    PushedLength(s.list, events);
    PushedReversed(s.list, events);
    TrimKeepsNewest(full, maxLen);
    ReverseCut(full, |Range(full, 0, maxLen - 1)|);
    hide Range;
  }

  /** A pop takes the oldest entries, as many as asked for, and leaves the rest. */
  lemma PopTakesOldest(s: State, count: nat, maxLen: int)
    ensures var queue, after := Reverse(s.list), Next(s, Pop(count), maxLen);
            var taken := if |queue| < count then |queue| else count;
            && Reverse(after.list) == queue[taken..]
            && after.gone == s.gone + Marked(queue[..taken], true)
            && after.pushed == s.pushed && after.reported == s.reported
  {
    hide Reverse;
    hide Marked;
    ReverseCut(s.list, if |s.list| > count then |s.list| - count else 0);
  }

  ghost predicate Conserved(s: State, maxLen: int) {
    Accounted(s.pushed, s.gone, s.list) && |Left(s.gone, false)| == s.reported && |s.list| <= maxLen
  }

  lemma PushConserves(s: State, events: seq<Raw>, maxLen: int)
    requires maxLen >= 1 && Conserved(s, maxLen) && events != []
    ensures Conserved(Next(s, Push(events), maxLen), maxLen)
  {
    hide Accounted;
    hide Left;
    hide Reverse;
    hide Pushed;
    hide Range;
    PushAccounted(s.pushed, s.gone, s.list, events, maxLen);
    var full := Pushed(s.list, events);
    MarkedLeft(s.gone, Reverse(full[|Range(full, 0, maxLen - 1)|..]), false);
  }

  lemma PopConserves(s: State, count: nat, maxLen: int)
    requires Conserved(s, maxLen)
    ensures Conserved(Next(s, Pop(count), maxLen), maxLen)
  {
    hide Accounted;
    hide Left;
    hide Reverse;
    var keep := if |s.list| > count then |s.list| - count else 0;
    PopAccounted(s.pushed, s.gone, s.list, keep);
    MarkedLeft(s.gone, Reverse(s.list[keep..]), true);
  }

  lemma {:induction false} AlwaysConserved(ops: seq<Op>, maxLen: int)
    requires maxLen >= 1
    ensures Conserved(Run(ops, maxLen), maxLen)
  {
    if ops != [] {
      var init, op := ops[..|ops| - 1], ops[|ops| - 1];
      AlwaysConserved(init, maxLen);
      match op
      case Push(events) => if events != [] { PushConserves(Run(init, maxLen), events, maxLen); }
      case Pop(count) => PopConserves(Run(init, maxLen), count, maxLen);
    }
  }

  /** In every interleaving: what left and what is resident are the push history in push order, so the
      buffer is a contiguous suffix of it; pushed = drained + reported dropped + resident; the cap holds. */
  lemma Conservation(ops: seq<Op>, maxLen: int)
    requires maxLen >= 1
    ensures var s := Run(ops, maxLen);
            && s.pushed == Items(s.gone) + Reverse(s.list)
            && |s.pushed| == |Left(s.gone, true)| + s.reported + |s.list|
            && |s.list| <= maxLen
  {
    AlwaysConserved(ops, maxLen);
    LeftCounts(Run(ops, maxLen).gone);
  }

  /** The cap and the reported drop are right exactly for a cap of at least one: LTRIM reads the stop
      index -1 of a zero cap as the tail and keeps everything, and a negative cap as so many to drop. */
  lemma CapHoldsIff(list: seq<Raw>, events: seq<Raw>, maxLen: int)
    requires events != []
    ensures var full := Pushed(list, events);
            var kept := Range(full, 0, maxLen - 1);
            && (|kept| <= maxLen <==> maxLen >= 1)
            && (|full| - |kept| == Overflow(|full|, maxLen) <==> maxLen >= 1)
            && (maxLen < 1 ==> |kept| == if |full| + maxLen > 0 then |full| + maxLen else 0)
  {
    PushedLength(list, events);
  }
}
