/** The dead-letter table of the destinations: one row per destination and event, written by an upsert
    that keeps the first payload and the latest reason. */
module DeadLetters {
  import opened Options

  /** An envelope; an empty id is a missing one, and `org` is None when it carries no integer. */
  datatype Event = Event(id: string, org: Option<int>, serialisable: bool, body: nat)

  datatype Rejected = Rejected(id: string, kind: string, reason: string)

  datatype Destination = Destination(id: string, org: Option<int>)

  datatype Key = Key(dest: string, event: string)

  datatype Payload = Empty | Envelope(event: Event)

  datatype Row = Row(org: Option<int>, kind: string, detail: string, payload: Payload)

  datatype Entry = Entry(key: Key, row: Row)

  /** How a session ends: committed, rolled back by an error at some row (or at the commit itself), or
      committed with the confirmation lost. */
  datatype Fault = NoFault | RaisedAt(row: nat) | ConfirmationLost

  function PayloadOf(e: Event): Payload {
    if e.serialisable then Envelope(e) else Empty
  }

  /** INSERT, or on a conflict UPDATE of the reason alone. */
  function Upsert(rows: map<Key, Row>, entry: Entry): map<Key, Row> {
    rows[entry.key := if entry.key in rows then rows[entry.key].(kind := entry.row.kind, detail := entry.row.detail)
        else entry.row]
  }

  function UpsertAll(rows: map<Key, Row>, entries: seq<Entry>): map<Key, Row> {
    if entries == [] then rows else Upsert(UpsertAll(rows, entries[..|entries| - 1]), entries[|entries| - 1])
  }

  /** The last envelope of the batch with this id. */
  function EventMap(batch: seq<Event>): map<string, Event> {
    if batch == [] then map[]
    else
      var e := batch[|batch| - 1];
      if e.id == "" then EventMap(batch[..|batch| - 1]) else EventMap(batch[..|batch| - 1])[e.id := e]
  }

  function RejectedEntry(dest: Destination, r: Rejected, events: map<string, Event>): Entry {
    var org := if r.id in events && events[r.id].org.Some? then events[r.id].org else dest.org;
    Entry(Key(dest.id, r.id), Row(org, r.kind, r.reason, if r.id in events then PayloadOf(events[r.id]) else Empty))
  }

  function RejectedEntries(dest: Destination, rejected: seq<Rejected>, batch: seq<Event>): seq<Entry> {
    seq(|rejected|, i requires 0 <= i < |rejected| => RejectedEntry(dest, rejected[i], EventMap(batch)))
  }

  /** An event without an id gets a drawn one. */
  function BatchEntry(dest: string, e: Event, drawn: string, org: Option<int>, kind: string, detail: string): Entry {
    Entry(Key(dest, if e.id != "" then e.id else drawn), Row(org, kind, detail, PayloadOf(e)))
  }

  function BatchEntries(dest: string, batch: seq<Event>, draw: nat -> string, org: Option<int>, kind: string,
      detail: string): seq<Entry>
  {
    seq(|batch|, i requires 0 <= i < |batch| => BatchEntry(dest, batch[i], draw(i), org, kind, detail))
  }

  function Written(rows: map<Key, Row>, entries: seq<Entry>, fault: Fault): map<Key, Row> {
    if fault.RaisedAt? then rows else UpsertAll(rows, entries)
  }

  class Table {
    var rows: map<Key, Row>

    constructor ()
      ensures rows == map[]
    {
      rows := map[];
    }

    method BuildEventMap(batch: seq<Event>) returns (events: map<string, Event>)
      ensures events == EventMap(batch)
    {
      events := map[];
      for i := 0 to |batch|
        invariant events == EventMap(batch[..i])
      {
        assert batch[..i + 1][..i] == batch[..i];
        if batch[i].id != "" {
          events := events[batch[i].id := batch[i]];
        }
      }
      assert batch[..|batch|] == batch;
    }

    /** One row per rejected event, all or nothing; False asks the dispatcher to retry. */
    method PersistRejected(dest: Destination, rejected: seq<Rejected>, batch: seq<Event>, fault: Fault)
        returns (ok: bool)
      modifies this
      ensures ok <==> rejected == [] || fault.NoFault?
      ensures rows == Written(old(rows), RejectedEntries(dest, rejected, batch), fault)
      ensures fault.RaisedAt? ==> rows == old(rows)
      ensures !fault.RaisedAt? ==> RejectedWritten(old(rows), rows, dest, rejected, batch)
    {
      RejectedRows(rows, dest, rejected, batch);
      hide RejectedWritten;
      if rejected == [] {
        return true;
      }
      var events := BuildEventMap(batch);
      ghost var entries := RejectedEntries(dest, rejected, batch);
      var session := rows;
      for i := 0 to |rejected|
        invariant session == UpsertAll(rows, entries[..i])
        invariant rows == old(rows)
        invariant fault.RaisedAt? ==> i <= fault.row
      {
        if fault == RaisedAt(i) {
          return false;
        }
        assert entries[..i + 1][..i] == entries[..i];
        var entry := RejectedEntry(dest, rejected[i], events);
        if entry.key in session {
          session := session[entry.key := session[entry.key].(kind := rejected[i].kind, detail := rejected[i].reason)];
        } else {
          session := session[entry.key := entry.row];
        }
      }
      assert entries[..|rejected|] == entries;
      if fault.RaisedAt? {
        return false;
      }
      rows := session;
      return fault.NoFault?;
    }

    /** One row per event of a batch that could not be sent at all. */
    method PersistBatch(dest: string, batch: seq<Event>, draw: nat -> string, org: Option<int>, kind: string,
        detail: string, fault: Fault)
      returns (ok: bool)
      modifies this
      ensures ok <==> batch == [] || fault.NoFault?
      ensures rows == Written(old(rows), BatchEntries(dest, batch, draw, org, kind, detail), fault)
      ensures fault.RaisedAt? ==> rows == old(rows)
      ensures !fault.RaisedAt? ==> BatchWritten(old(rows), rows, dest, batch, draw, Row(org, kind, detail, Empty))
    {
      BatchRows(rows, dest, batch, draw, org, kind, detail);
      hide BatchWritten;
      if batch == [] {
        return true;
      }
      ghost var entries := BatchEntries(dest, batch, draw, org, kind, detail);
      var session := rows;
      for i := 0 to |batch|
        invariant session == UpsertAll(rows, entries[..i])
        invariant rows == old(rows)
        invariant fault.RaisedAt? ==> i <= fault.row
      {
        if fault == RaisedAt(i) {
          return false;
        }
        assert entries[..i + 1][..i] == entries[..i];
        var entry := BatchEntry(dest, batch[i], draw(i), org, kind, detail);
        if entry.key in session {
          session := session[entry.key := session[entry.key].(kind := kind, detail := detail)];
        } else {
          session := session[entry.key := entry.row];
        }
      }
      assert entries[..|batch|] == entries;
      if fault.RaisedAt? {
        return false;
      }
      rows := session;
      return fault.NoFault?;
    }
  }

  // ---- What a write leaves in the table ----

  /** The first and the last entry with this key. */
  ghost predicate FirstWith(entries: seq<Entry>, k: Key, first: nat) {
    first < |entries| && entries[first].key == k && forall j :: 0 <= j < first ==> entries[j].key != k
  }

  ghost predicate LastWith(entries: seq<Entry>, k: Key, last: nat) {
    last < |entries| && entries[last].key == k && forall j :: last < j < |entries| ==> entries[j].key != k
  }

  /** Nothing is deleted and nobody else's row is touched. */
  lemma {:induction false} UpsertKeys(rows: map<Key, Row>, entries: seq<Entry>, k: Key)
    ensures k in UpsertAll(rows, entries) <==> k in rows || exists i :: 0 <= i < |entries| && entries[i].key == k
    ensures k in rows && (forall i :: 0 <= i < |entries| ==> entries[i].key != k) ==>
        UpsertAll(rows, entries)[k] == rows[k]
  {
    if entries != [] {
      var init, e := entries[..|entries| - 1], entries[|entries| - 1];
      UpsertKeys(rows, init, k);
      forall i | 0 <= i < |init| ensures init[i] == entries[i] {}
      assert entries[|init|] == e;
    }
  }

  /** The latest reason wins. */
  lemma {:induction false} LatestReason(rows: map<Key, Row>, entries: seq<Entry>, last: nat)
    requires last < |entries| && LastWith(entries, entries[last].key, last)
    ensures var k := entries[last].key;
            && k in UpsertAll(rows, entries)
            && UpsertAll(rows, entries)[k].kind == entries[last].row.kind
            && UpsertAll(rows, entries)[k].detail == entries[last].row.detail
  {
    var init := entries[..|entries| - 1];
    if last < |init| {
      assert init[last] == entries[last];
      LatestReason(rows, init, last);
    }
  }

  /** The payload and organisation of a row already there stay. */
  lemma {:induction false} PresentPayload(rows: map<Key, Row>, entries: seq<Entry>, k: Key)
    requires k in rows
    ensures k in UpsertAll(rows, entries)
    ensures UpsertAll(rows, entries)[k].payload == rows[k].payload && UpsertAll(rows, entries)[k].org == rows[k].org
  {
    if entries != [] {
      PresentPayload(rows, entries[..|entries| - 1], k);
    }
  }

  /** A new row keeps the payload and organisation of the first entry with its key. */
  lemma {:induction false} FirstPayload(rows: map<Key, Row>, entries: seq<Entry>, first: nat)
    requires first < |entries| && entries[first].key !in rows && FirstWith(entries, entries[first].key, first)
    ensures var k := entries[first].key;
            && k in UpsertAll(rows, entries)
            && UpsertAll(rows, entries)[k].payload == entries[first].row.payload
            && UpsertAll(rows, entries)[k].org == entries[first].row.org
  {
    var init, k := entries[..|entries| - 1], entries[first].key;
    if first < |init| {
      assert init[first] == entries[first];
      FirstPayload(rows, init, first);
    } else {
      UpsertKeys(rows, init, k);
    }
  }

  lemma {:induction false} FindFirst(entries: seq<Entry>, k: Key, i: nat) returns (first: nat)
    requires i < |entries| && entries[i].key == k
    ensures FirstWith(entries, k, first)
  {
    if j :| 0 <= j < i && entries[j].key == k {
      first := FindFirst(entries, k, j);
    } else {
      first := i;
    }
  }

  lemma {:induction false} FindLast(entries: seq<Entry>, k: Key, i: nat) returns (last: nat)
    requires i < |entries| && entries[i].key == k
    ensures LastWith(entries, k, last)
    decreases |entries| - i
  {
    if j :| i < j < |entries| && entries[j].key == k {
      last := FindLast(entries, k, j);
    } else {
      last := i;
    }
  }

  /** A redelivered write changes nothing: the row of a key is the same after one and after two. */
  lemma WriteIsIdempotent(rows: map<Key, Row>, entries: seq<Entry>)
    ensures UpsertAll(UpsertAll(rows, entries), entries) == UpsertAll(rows, entries)
  {
    var once := UpsertAll(rows, entries);
    var twice := UpsertAll(once, entries);
    forall k ensures k in once <==> k in twice
             ensures k in once ==> once[k] == twice[k]
    {
      UpsertKeys(rows, entries, k);
      UpsertKeys(once, entries, k);
      if i :| 0 <= i < |entries| && entries[i].key == k {
        var last := FindLast(entries, k, i);
        LatestReason(rows, entries, last);
        LatestReason(once, entries, last);
        PresentPayload(once, entries, k);
      }
    }
  }

  /** The map holds exactly the non-empty ids, each with the last envelope that carries it. */
  lemma {:induction false} EventMapIs(batch: seq<Event>, p: nat)
    requires p < |batch| && batch[p].id != ""
    requires forall q :: p < q < |batch| ==> batch[q].id != batch[p].id
    ensures batch[p].id in EventMap(batch) && EventMap(batch)[batch[p].id] == batch[p]
  {
    var init := batch[..|batch| - 1];
    if p < |init| {
      EventMapIs(init, p);
    }
  }

  lemma {:induction false} EventMapIds(batch: seq<Event>, id: string)
    ensures id in EventMap(batch) <==> id != "" && exists p :: 0 <= p < |batch| && batch[p].id == id
    ensures id in EventMap(batch) ==> EventMap(batch)[id].id == id && EventMap(batch)[id] in batch
  {
    if batch != [] {
      var init := batch[..|batch| - 1];
      EventMapIds(init, id);
      forall p | 0 <= p < |init| ensures init[p] == batch[p] {}
      assert batch[|init|] == batch[|batch| - 1];
    }
  }

  /** The id under which the senders report an event: a question mark when it has none. */
  function Reported(e: Event): string {
    if e.id != "" then e.id else "?"
  }

  /** A rejected event can be read back from its new row exactly when it has an id, serialises and is
      the last of its batch with that id; in particular an event without an id leaves no payload. */
  lemma PayloadIsEventIff(rows: map<Key, Row>, dest: Destination, rejected: seq<Rejected>, batch: seq<Event>, e: Event,
      i: nat)
    requires e in batch && i < |rejected| && rejected[i].id == Reported(e)
    requires Key(dest.id, Reported(e)) !in rows
    ensures var k := Key(dest.id, Reported(e));
            var after := UpsertAll(rows, RejectedEntries(dest, rejected, batch));
            && k in after
            && (after[k].payload == Envelope(e)
                <==> e.id != "" && e.serialisable && e.id in EventMap(batch) && EventMap(batch)[e.id] == e)
  {
    var entries, k := RejectedEntries(dest, rejected, batch), Key(dest.id, Reported(e));
    assert entries[i].key == k;
    var first := FindFirst(entries, k, i);
    FirstPayload(rows, entries, first);
    EventMapIds(batch, Reported(e));
  }

  /** No later event of the batch has this id. */
  ghost predicate LastEvent(batch: seq<Event>, p: nat) {
    p < |batch| && forall q :: p < q < |batch| ==> batch[q].id != batch[p].id
  }

  /** What the batch says about an id: the last event that carries it gives the payload, if it serialises,
      and the organisation, if it has one; without such an event there is no payload, and the
      organisation is the destination's. */
  ghost predicate Describes(row: Row, dest: Destination, batch: seq<Event>, id: string) {
    && (forall p: nat | id != "" && LastEvent(batch, p) && batch[p].id == id ::
          && row.org == (if batch[p].org.Some? then batch[p].org else dest.org)
          && row.payload == (if batch[p].serialisable then Envelope(batch[p]) else Empty))
    && (id == "" || (forall p :: 0 <= p < |batch| ==> batch[p].id != id) ==>
        row.org == dest.org && row.payload == Empty)
  }

  /** No later rejection is for this id. */
  ghost predicate LastRejected(rejected: seq<Rejected>, i: nat) {
    i < |rejected| && forall j :: i < j < |rejected| ==> rejected[j].id != rejected[i].id
  }

  ghost predicate IsRejected(rejected: seq<Rejected>, dest: Destination, k: Key) {
    k.dest == dest.id && exists i :: 0 <= i < |rejected| && rejected[i].id == k.event
  }

  /** The table after the rejections of a batch are written, row by row: every rejected id has a row and
      nobody else's changes; a row shows the last reason given for its id; one that was there keeps its
      payload and organisation, and a new one has what the batch says about the id. */
  ghost predicate RejectedWritten(before: map<Key, Row>, after: map<Key, Row>, dest: Destination,
                                  rejected: seq<Rejected>, batch: seq<Event>)
  {
    && (forall k :: k in after <==> k in before || IsRejected(rejected, dest, k))
    && (forall k | k in before && !IsRejected(rejected, dest, k) :: after[k] == before[k])
    && (forall k | k in before :: after[k].org == before[k].org && after[k].payload == before[k].payload)
    && (forall k | IsRejected(rejected, dest, k) && k !in before :: Describes(after[k], dest, batch, k.event))
    && (forall i: nat | LastRejected(rejected, i) && Key(dest.id, rejected[i].id) in after ::
          && after[Key(dest.id, rejected[i].id)].kind == rejected[i].kind
          && after[Key(dest.id, rejected[i].id)].detail == rejected[i].reason)
  }

  lemma EntryDescribes(dest: Destination, r: Rejected, batch: seq<Event>)
    ensures Describes(RejectedEntry(dest, r, EventMap(batch)).row, dest, batch, r.id)
  {
    EventMapIds(batch, r.id);
    forall p: nat | r.id != "" && LastEvent(batch, p) && batch[p].id == r.id
      ensures r.id in EventMap(batch) && EventMap(batch)[r.id] == batch[p]
    {
      EventMapIs(batch, p);
    }
    hide EventMap;
  }

  lemma NewRejectedRow(rows: map<Key, Row>, dest: Destination, rejected: seq<Rejected>, batch: seq<Event>, i: nat)
    requires i < |rejected| && Key(dest.id, rejected[i].id) !in rows
    ensures var after := UpsertAll(rows, RejectedEntries(dest, rejected, batch));
            && Key(dest.id, rejected[i].id) in after
            && Describes(after[Key(dest.id, rejected[i].id)], dest, batch, rejected[i].id)
  {
    var entries, k := RejectedEntries(dest, rejected, batch), Key(dest.id, rejected[i].id);
    assert entries[i].key == k;
    var first := FindFirst(entries, k, i);
    FirstPayload(rows, entries, first);
    assert entries[first] == RejectedEntry(dest, rejected[first], EventMap(batch));
    EntryDescribes(dest, rejected[first], batch);
  }

  lemma RejectedRowOf(rows: map<Key, Row>, dest: Destination, rejected: seq<Rejected>, batch: seq<Event>, k: Key)
    ensures var after := UpsertAll(rows, RejectedEntries(dest, rejected, batch));
            && (k in after <==> k in rows || IsRejected(rejected, dest, k))
            && (k in rows && !IsRejected(rejected, dest, k) ==> after[k] == rows[k])
  {
    var entries := RejectedEntries(dest, rejected, batch);
    forall i | 0 <= i < |entries| ensures entries[i].key == Key(dest.id, rejected[i].id) {}
    UpsertKeys(rows, entries, k);
    hide UpsertAll;
    hide RejectedEntries;
    if IsRejected(rejected, dest, k) {
      var i :| 0 <= i < |rejected| && rejected[i].id == k.event;
      assert entries[i].key == k;
    }
  }

  lemma LastRejectedShows(rows: map<Key, Row>, dest: Destination, rejected: seq<Rejected>, batch: seq<Event>, i: nat)
    requires LastRejected(rejected, i)
    ensures var k, after := Key(dest.id, rejected[i].id), UpsertAll(rows, RejectedEntries(dest, rejected, batch));
            k in after && after[k].kind == rejected[i].kind && after[k].detail == rejected[i].reason
  {
    LatestReason(rows, RejectedEntries(dest, rejected, batch), i);
  }

  /** What a committed write of rejections leaves. */
  lemma RejectedRows(rows: map<Key, Row>, dest: Destination, rejected: seq<Rejected>, batch: seq<Event>)
    ensures RejectedWritten(rows, UpsertAll(rows, RejectedEntries(dest, rejected, batch)), dest, rejected, batch)
  {
    hide UpsertAll;
    hide Describes;
    hide IsRejected;
    hide RejectedEntries;
    var entries := RejectedEntries(dest, rejected, batch);
    var after := UpsertAll(rows, entries);
    forall k
      ensures k in after <==> k in rows || IsRejected(rejected, dest, k)
      ensures k in rows && !IsRejected(rejected, dest, k) ==> after[k] == rows[k]
    {
      RejectedRowOf(rows, dest, rejected, batch, k);
    }
    forall k | k in rows ensures after[k].org == rows[k].org && after[k].payload == rows[k].payload {
      PresentPayload(rows, entries, k);
    }
    forall k | IsRejected(rejected, dest, k) && k !in rows ensures Describes(after[k], dest, batch, k.event) {
      var i := RejectedAt(rejected, dest, k);
      NewRejectedRow(rows, dest, rejected, batch, i);
    }
    forall i: nat | LastRejected(rejected, i)
      ensures Key(dest.id, rejected[i].id) in after
      ensures after[Key(dest.id, rejected[i].id)].kind == rejected[i].kind
      ensures after[Key(dest.id, rejected[i].id)].detail == rejected[i].reason
    {
      LastRejectedShows(rows, dest, rejected, batch, i);
    }
  }

  lemma RejectedAt(rejected: seq<Rejected>, dest: Destination, k: Key) returns (i: nat)
    requires IsRejected(rejected, dest, k)
    ensures i < |rejected| && k == Key(dest.id, rejected[i].id)
  {
    i :| 0 <= i < |rejected| && rejected[i].id == k.event;
  }

  /** The key of an event: its own id, or the one drawn for it. */
  function KeyAt(dest: string, batch: seq<Event>, draw: nat -> string, p: nat): Key
    requires p < |batch|
  {
    if batch[p].id == "" then Key(dest, draw(p)) else Key(dest, batch[p].id)
  }

  ghost predicate FirstAt(dest: string, batch: seq<Event>, draw: nat -> string, p: nat) {
    p < |batch| && forall q: nat :: q < p ==> KeyAt(dest, batch, draw, q) != KeyAt(dest, batch, draw, p)
  }

  ghost predicate HasKey(dest: string, batch: seq<Event>, draw: nat -> string, k: Key) {
    exists p: nat :: p < |batch| && KeyAt(dest, batch, draw, p) == k
  }

  /** The table after a whole batch is written: a row for every event under its own id or a drawn one, with
      this reason, and nobody else's changes; one that was there keeps its payload and organisation, and a
      new one has the payload of the first event with its key, if that serialises. */
  ghost predicate BatchWritten(before: map<Key, Row>, after: map<Key, Row>, dest: string, batch: seq<Event>,
                               draw: nat -> string, like: Row)
  {
    && (forall k :: k in after <==> k in before || HasKey(dest, batch, draw, k))
    && (forall k | k in before && !HasKey(dest, batch, draw, k) :: after[k] == before[k])
    && (forall k | k in before :: after[k].org == before[k].org && after[k].payload == before[k].payload)
    && (forall k | HasKey(dest, batch, draw, k) && k in after ::
          after[k].kind == like.kind && after[k].detail == like.detail)
    && (forall p: nat | FirstAt(dest, batch, draw, p) && KeyAt(dest, batch, draw, p) !in before ::
          && KeyAt(dest, batch, draw, p) in after
          && after[KeyAt(dest, batch, draw, p)].org == like.org
          && after[KeyAt(dest, batch, draw, p)].payload
             == (if batch[p].serialisable then Envelope(batch[p]) else Empty))
  }

  lemma BatchKeys(dest: string, batch: seq<Event>, draw: nat -> string, org: Option<int>, kind: string, detail: string)
    ensures var entries := BatchEntries(dest, batch, draw, org, kind, detail);
            && |entries| == |batch|
            && forall p: nat | p < |batch| ::
                 && entries[p].key == KeyAt(dest, batch, draw, p) && entries[p].row.kind == kind
                 && entries[p].row.detail == detail && entries[p].row.org == org
                 && entries[p].row.payload == (if batch[p].serialisable then Envelope(batch[p]) else Empty)
  {
    var entries := BatchEntries(dest, batch, draw, org, kind, detail);
    forall p: nat | p < |batch|
      ensures entries[p] == BatchEntry(dest, batch[p], draw(p), org, kind, detail)
    {
    }
  }

  lemma BatchRowOf(rows: map<Key, Row>, entries: seq<Entry>, dest: string, batch: seq<Event>, draw: nat -> string,
                   kind: string, detail: string, k: Key)
    requires |entries| == |batch|
    requires forall p: nat | p < |batch| ::
               entries[p].key == KeyAt(dest, batch, draw, p) && entries[p].row.kind == kind
               && entries[p].row.detail == detail
    ensures var after := UpsertAll(rows, entries);
            && (k in after <==> k in rows || HasKey(dest, batch, draw, k))
            && (k in rows && !HasKey(dest, batch, draw, k) ==> after[k] == rows[k])
            && (HasKey(dest, batch, draw, k) ==> after[k].kind == kind && after[k].detail == detail)
  {
    hide KeyAt;
    UpsertKeys(rows, entries, k);
    if HasKey(dest, batch, draw, k) {
      var p: nat :| p < |batch| && KeyAt(dest, batch, draw, p) == k;
      assert entries[p].key == k;
      var last := FindLast(entries, k, p);
      LatestReason(rows, entries, last);
    }
  }

  lemma FirstIsFirst(entries: seq<Entry>, dest: string, batch: seq<Event>, draw: nat -> string, p: nat)
    requires |entries| == |batch| && FirstAt(dest, batch, draw, p)
    requires forall p: nat | p < |batch| :: entries[p].key == KeyAt(dest, batch, draw, p)
    ensures FirstWith(entries, entries[p].key, p) && entries[p].key == KeyAt(dest, batch, draw, p)
  {
    hide KeyAt;
  }

  /** What a committed write of a whole batch leaves. */
  lemma BatchRows(rows: map<Key, Row>, dest: string, batch: seq<Event>, draw: nat -> string, org: Option<int>,
                  kind: string, detail: string)
    ensures BatchWritten(rows, UpsertAll(rows, BatchEntries(dest, batch, draw, org, kind, detail)), dest, batch, draw,
                         Row(org, kind, detail, Empty))
  {
    hide KeyAt;
    hide HasKey;
    hide FirstWith;
    hide UpsertAll;
    var entries := BatchEntries(dest, batch, draw, org, kind, detail);
    var after := UpsertAll(rows, entries);
    BatchKeys(dest, batch, draw, org, kind, detail);
    hide BatchEntries;
    forall k
      ensures k in after <==> k in rows || HasKey(dest, batch, draw, k)
      ensures k in rows && !HasKey(dest, batch, draw, k) ==> after[k] == rows[k]
      ensures HasKey(dest, batch, draw, k) ==> after[k].kind == kind && after[k].detail == detail
    {
      BatchRowOf(rows, entries, dest, batch, draw, kind, detail, k);
    }
    forall k | k in rows ensures after[k].org == rows[k].org && after[k].payload == rows[k].payload {
      PresentPayload(rows, entries, k);
    }
    forall p: nat | FirstAt(dest, batch, draw, p) && KeyAt(dest, batch, draw, p) !in rows
      ensures p < |batch| && KeyAt(dest, batch, draw, p) in after
      ensures after[KeyAt(dest, batch, draw, p)].org == org
      ensures after[KeyAt(dest, batch, draw, p)].payload == if batch[p].serialisable then Envelope(batch[p]) else Empty
    {
      FirstIsFirst(entries, dest, batch, draw, p);
      FirstPayload(rows, entries, p);
    }
  }

  /** So every event has a row under its own id, or under the drawn one if it has none, with this reason; and
      a new one has its own payload and this organisation, unless an earlier event took the same key. */
  lemma BatchKept(rows: map<Key, Row>, dest: string, batch: seq<Event>, draw: nat -> string, org: Option<int>,
                  kind: string, detail: string, p: nat)
    requires p < |batch|
    ensures var after := UpsertAll(rows, BatchEntries(dest, batch, draw, org, kind, detail));
            var k := Key(dest, if batch[p].id != "" then batch[p].id else draw(p));
            && k in after && after[k].kind == kind && after[k].detail == detail
            && (k !in rows && FirstAt(dest, batch, draw, p) ==>
                  after[k] == Row(org, kind, detail, if batch[p].serialisable then Envelope(batch[p]) else Empty))
  {
    BatchRows(rows, dest, batch, draw, org, kind, detail);
    assert HasKey(dest, batch, draw, KeyAt(dest, batch, draw, p));
    hide HasKey;
    hide FirstAt;
    hide UpsertAll;
    hide BatchEntries;
  }
}
