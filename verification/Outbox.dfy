/**
 The event outbox and one websocket connection's cursor into it. There is no monotonic
 key on the table, so the cursor is a timestamp read inclusively, plus the ids already
 handled at exactly that timestamp.
 */
module Outbox {
  /** The decoded payload; a row whose payload does not decode is skipped, not sent. */
  datatype Body = Json(text: string) | Malformed

  datatype Row = Row(owner: string, kind: string, createdAt: real, body: Body)

  datatype Event = Event(id: string, createdAt: real, body: Body)

  type Table = map<string, Row>

  // ---------- reading ----------

  predicate Relevant(row: Row, owner: string, kinds: set<string>) {
    row.owner == owner && row.kind in kinds
  }

  predicate Selected(t: Table, owner: string, kinds: set<string>, since: real, exclude: set<string>, id: string) {
    id in t && Relevant(t[id], owner, kinds) && t[id].createdAt >= since && id !in exclude
  }

  ghost predicate Ordered(events: seq<Event>) {
    forall i, j :: 0 <= i < j < |events| ==> events[i].createdAt <= events[j].createdAt
  }

  ghost predicate DistinctIds(events: seq<Event>) {
    forall i, j :: 0 <= i < j < |events| ==> events[i].id != events[j].id
  }

  ghost predicate Lists(events: seq<Event>, id: string) {
    exists i :: 0 <= i < |events| && events[i].id == id
  }

  // Oldest first, every selected row exactly once; ties in no particular order.
  ghost predicate IsRead(t: Table, owner: string, kinds: set<string>, since: real, exclude: set<string>,
                         events: seq<Event>) {
    && Ordered(events) && DistinctIds(events)
    && (forall i :: 0 <= i < |events| ==>
          Selected(t, owner, kinds, since, exclude, events[i].id) && FromRow(events[i], t[events[i].id]))
    && (forall id <- t :: Selected(t, owner, kinds, since, exclude, id) ==> Lists(events, id))
  }

  predicate FromRow(e: Event, row: Row) {
    e.createdAt == row.createdAt && e.body == row.body
  }

  method InsertByTime(events: seq<Event>, e: Event) returns (r: seq<Event>)
    requires Ordered(events)
    ensures Ordered(r) && exists k :: 0 <= k <= |events| && r == events[..k] + [e] + events[k..]
  {
    var k := 0;
    while k < |events| && events[k].createdAt <= e.createdAt
      invariant 0 <= k <= |events|
      invariant forall i :: 0 <= i < k ==> events[i].createdAt <= e.createdAt
    {
      k := k + 1;
    }
    r := events[..k] + [e] + events[k..];
  }

  lemma InsertFacts(events: seq<Event>, e: Event, k: nat, r: seq<Event>)
    requires k <= |events| && r == events[..k] + [e] + events[k..]
    ensures forall id :: Lists(r, id) <==> id == e.id || Lists(events, id)
    ensures DistinctIds(events) && !Lists(events, e.id) ==> DistinctIds(r)
    ensures forall i :: 0 <= i < |r| ==> r[i] == if i < k then events[i] else if i == k then e else events[i - 1]
  {
    assert r[k] == e;
    forall id ensures Lists(r, id) <==> id == e.id || Lists(events, id) {
      if i :| 0 <= i < |events| && events[i].id == id {
        assert r[if i < k then i else i + 1] == events[i];
      }
    }
  }

  method ReadSince(t: Table, owner: string, kinds: set<string>, since: real, exclude: set<string>)
    returns (events: seq<Event>)
    ensures IsRead(t, owner, kinds, since, exclude, events)
  {
    events := [];
    var rest := t.Keys;
    while rest != {}
      invariant rest <= t.Keys && Ordered(events) && DistinctIds(events)
      invariant forall i :: 0 <= i < |events| ==>
        Selected(t, owner, kinds, since, exclude, events[i].id) && events[i].id !in rest
            && FromRow(events[i], t[events[i].id])
      invariant forall id <- t.Keys - rest :: Selected(t, owner, kinds, since, exclude, id) ==> Lists(events, id)
      decreases rest
    {
      var id :| id in rest;
      rest := rest - {id};
      if Selected(t, owner, kinds, since, exclude, id) {
        var e := Event(id, t[id].createdAt, t[id].body);
        ghost var before := events;
        events := InsertByTime(events, e);
        ghost var k :| 0 <= k <= |before| && events == before[..k] + [e] + before[k..];
        InsertFacts(before, e, k, events);
      }
    }
  }

  // ---------- one connection ----------

  /** The cursor, and what the connection has handled and sent so far. */
  datatype Cursor = Cursor(watermark: real, sentAt: set<string>, handled: set<string>, sent: seq<Event>)

  function NewCursor(): Cursor {
    Cursor(0.0, {}, {}, [])
  }

  // A malformed event moves the cursor like any other, so it cannot wedge it.
  function Handle(c: Cursor, e: Event): Cursor {
    var sent := if e.body.Json? then c.sent + [e] else c.sent;
    if e.createdAt > c.watermark then Cursor(e.createdAt, {e.id}, c.handled + {e.id}, sent)
    else Cursor(c.watermark, c.sentAt + {e.id}, c.handled + {e.id}, sent)
  }

  function HandleAll(c: Cursor, events: seq<Event>): Cursor
    decreases |events|
  {
    if |events| == 0 then c else HandleAll(Handle(c, events[0]), events[1..])
  }

  class Connection {
    var watermark: real
    var sentAtWatermark: set<string>
    var sent: seq<Event>
    ghost var handled: set<string>

    ghost function State(): Cursor
      reads this
    {
      Cursor(watermark, sentAtWatermark, handled, sent)
    }

    constructor ()
      ensures State() == NewCursor()
    {
      watermark, sentAtWatermark, sent, handled := 0.0, {}, [], {};
    }

    // The delivery loop of one poll.
    method Deliver(events: seq<Event>)
      modifies this
      ensures State() == HandleAll(old(State()), events)
    {
      for i := 0 to |events|
        invariant HandleAll(State(), events[i..]) == HandleAll(old(State()), events)
      {
        var e := events[i];
        assert events[i..][0] == e && events[i..][1..] == events[i + 1..];
        if e.body.Json? {
          sent := sent + [e];
        }
        if e.createdAt > watermark {
          watermark := e.createdAt;
          sentAtWatermark := {e.id};
        } else {
          sentAtWatermark := sentAtWatermark + {e.id};
        }
        handled := handled + {e.id};
      }
      assert events[|events|..] == [];
    }
  }

  // ---------- runs ----------

  /** Publications, sweeps and other connections interleave with the single sends of a poll. */
  datatype System = System(table: Table, published: Table, cursor: Cursor, batch: seq<Event>)

  datatype Step =
    | Publish(id: string, row: Row)
    | Sweep(cutoff: real)
    | Read(events: seq<Event>)
    | SendNext

  datatype Listener = Listener(owner: string, kinds: set<string>)

  function Init(): System {
    System(map[], map[], NewCursor(), [])
  }

  ghost predicate Legal(who: Listener, s: System, step: Step) {
    match step
    case Publish(id, _) => id !in s.published
    case Read(events) =>
      s.batch == [] && IsRead(s.table, who.owner, who.kinds, s.cursor.watermark, s.cursor.sentAt, events)
    case SendNext => s.batch != []
    case Sweep(_) => true
  }

  ghost function Apply(who: Listener, s: System, step: Step): System
    requires Legal(who, s, step)
  {
    match step
    case Publish(id, row) => s.(table := s.table[id := row], published := s.published[id := row])
    case Sweep(cutoff) => s.(table := map id | id in s.table && s.table[id].createdAt >= cutoff :: s.table[id])
    case Read(events) => s.(batch := events)
    case SendNext => s.(cursor := Handle(s.cursor, s.batch[0]), batch := s.batch[1..])
  }

  ghost predicate LegalRun(who: Listener, s: System, steps: seq<Step>)
    decreases |steps|
  {
    |steps| == 0 || (Legal(who, s, steps[0]) && LegalRun(who, Apply(who, s, steps[0]), steps[1..]))
  }

  ghost function Exec(who: Listener, s: System, steps: seq<Step>): System
    requires LegalRun(who, s, steps)
    decreases |steps|
  {
    if |steps| == 0 then s else Exec(who, Apply(who, s, steps[0]), steps[1..])
  }

  // ---------- what every run keeps ----------

  ghost predicate Known(published: Table, e: Event) {
    e.id in published && FromRow(e, published[e.id])
  }

  ghost predicate CursorOk(published: Table, c: Cursor) {
    && (forall id <- c.handled :: id in published && published[id].createdAt <= c.watermark
                                  && (published[id].createdAt == c.watermark ==> id in c.sentAt))
    && (forall id <- c.sentAt :: id in c.handled && published[id].createdAt == c.watermark)
    && Ordered(c.sent) && DistinctIds(c.sent)
    && (forall i :: 0 <= i < |c.sent| ==> c.sent[i].id in c.handled && Known(published, c.sent[i]))
    && SentDecoded(published, c)
  }

  // What was handled was sent, unless its payload does not decode.
  ghost predicate SentDecoded(published: Table, c: Cursor) {
    forall id <- c.handled :: id in published && (published[id].body.Json? <==> Lists(c.sent, id))
  }

  ghost predicate BatchOk(published: Table, c: Cursor, batch: seq<Event>) {
    && Ordered(batch) && DistinctIds(batch)
    && (forall i :: 0 <= i < |batch| ==>
          Known(published, batch[i]) && batch[i].id !in c.handled && batch[i].createdAt >= c.watermark)
  }

  // All of it is the listener's own business.
  ghost predicate OnlyRelevant(who: Listener, published: Table, c: Cursor, batch: seq<Event>) {
    && (forall id <- c.handled :: id in published && Relevant(published[id], who.owner, who.kinds))
    && (forall i :: 0 <= i < |batch| ==>
          batch[i].id in published && Relevant(published[batch[i].id], who.owner, who.kinds))
  }

  ghost predicate Inv(who: Listener, s: System) {
    && (forall id <- s.table :: id in s.published && s.published[id] == s.table[id])
    && CursorOk(s.published, s.cursor) && BatchOk(s.published, s.cursor, s.batch)
    && OnlyRelevant(who, s.published, s.cursor, s.batch)
  }

  lemma ListsMore(events: seq<Event>, e: Event)
    ensures forall id :: Lists(events + [e], id) <==> id == e.id || Lists(events, id)
  {
    var more := events + [e];
    assert more[|events|] == e;
    forall id ensures Lists(more, id) <==> id == e.id || Lists(events, id) {
      if i :| 0 <= i < |events| && events[i].id == id {
        assert more[i] == events[i];
      }
    }
  }

  lemma HandleKeepsSent(published: Table, c: Cursor, e: Event)
    requires SentDecoded(published, c) && Known(published, e) && e.id !in c.handled
    requires forall i :: 0 <= i < |c.sent| ==> c.sent[i].id in c.handled
    ensures SentDecoded(published, Handle(c, e))
  {
    ListsMore(c.sent, e);
    assert !Lists(c.sent, e.id);
  }

  lemma HandleKeeps(published: Table, c: Cursor, e: Event)
    requires CursorOk(published, c) && Known(published, e) && e.id !in c.handled && e.createdAt >= c.watermark
    ensures CursorOk(published, Handle(c, e))
  {
    var c' := Handle(c, e);
    forall i | 0 <= i < |c.sent| ensures c.sent[i].createdAt <= e.createdAt && c.sent[i].id != e.id {
      assert c.sent[i].id in c.handled && Known(published, c.sent[i]);
    }
    assert Ordered(c'.sent) && DistinctIds(c'.sent);
    HandleKeepsSent(published, c, e);
  }

  lemma SendKeepsBatch(published: Table, c: Cursor, batch: seq<Event>)
    requires BatchOk(published, c, batch) && batch != []
    ensures BatchOk(published, Handle(c, batch[0]), batch[1..])
  {
  }

  lemma SendKeepsRelevant(who: Listener, published: Table, c: Cursor, batch: seq<Event>)
    requires OnlyRelevant(who, published, c, batch) && batch != []
    ensures OnlyRelevant(who, published, Handle(c, batch[0]), batch[1..])
  {
  }

  // What a read returns is new to the cursor.
  lemma ReadKeeps(who: Listener, s: System, events: seq<Event>)
    requires Inv(who, s) && Legal(who, s, Read(events))
    ensures BatchOk(s.published, s.cursor, events) && OnlyRelevant(who, s.published, s.cursor, events)
  {
  }

  lemma StepKeeps(who: Listener, s: System, step: Step)
    requires Inv(who, s) && Legal(who, s, step)
    ensures Inv(who, Apply(who, s, step))
  {
    match step
    case Publish(id, row) => PublishKeeps(who, s, id, row);
    case Sweep(_) =>
    case Read(events) => ReadKeeps(who, s, events);
    case SendNext =>
      HandleKeeps(s.published, s.cursor, s.batch[0]);
      SendKeepsBatch(s.published, s.cursor, s.batch);
      SendKeepsRelevant(who, s.published, s.cursor, s.batch);
  }

  lemma PublishKeeps(who: Listener, s: System, id: string, row: Row)
    requires Inv(who, s) && id !in s.published
    ensures var p' := s.published[id := row];
            CursorOk(p', s.cursor) && BatchOk(p', s.cursor, s.batch) && OnlyRelevant(who, p', s.cursor, s.batch)
  {
    assert forall i :: 0 <= i < |s.cursor.sent| ==> Known(s.published, s.cursor.sent[i]);
    assert forall i :: 0 <= i < |s.batch| ==> Known(s.published, s.batch[i]);
  }

  lemma {:induction false} RunKeeps(who: Listener, s: System, steps: seq<Step>)
    requires Inv(who, s) && LegalRun(who, s, steps)
    ensures Inv(who, Exec(who, s, steps))
    decreases |steps|
  {
    if |steps| > 0 {
      StepKeeps(who, s, steps[0]);
      RunKeeps(who, Apply(who, s, steps[0]), steps[1..]);
    }
  }

  /** On one connection no event is ever sent twice, and events are sent in the order of their
      timestamps, whatever is published or swept in between. */
  lemma SentOnceInOrder(who: Listener, steps: seq<Step>)
    requires LegalRun(who, Init(), steps)
    ensures var sent := Exec(who, Init(), steps).cursor.sent;
            forall i, j :: 0 <= i < j < |sent| ==> sent[i].id != sent[j].id && sent[i].createdAt <= sent[j].createdAt
  {
    RunKeeps(who, Init(), steps);
    var sent := Exec(who, Init(), steps).cursor.sent;
    assert Ordered(sent) && DistinctIds(sent);
  }

  /** A connection is sent only events of its own owner and kinds, as they were published. */
  lemma SentIsOwn(who: Listener, steps: seq<Step>, i: nat)
    requires LegalRun(who, Init(), steps) && i < |Exec(who, Init(), steps).cursor.sent|
    ensures var s := Exec(who, Init(), steps);
            var e := s.cursor.sent[i];
            && e.id in s.published && e.createdAt == s.published[e.id].createdAt && e.body == s.published[e.id].body
            && s.published[e.id].owner == who.owner && s.published[e.id].kind in who.kinds && e.body.Json?
  {
    RunKeeps(who, Init(), steps);
    var s := Exec(who, Init(), steps);
    var e := s.cursor.sent[i];
    assert Known(s.published, e) && e.id in s.cursor.handled;
    assert Lists(s.cursor.sent, e.id);
  }

  // Some step deletes the rows of that time.
  ghost predicate SweptIn(steps: seq<Step>, createdAt: real) {
    exists i :: 0 <= i < |steps| && steps[i].Sweep? && createdAt < steps[i].cutoff
  }

  lemma SweptLater(steps: seq<Step>, createdAt: real)
    requires |steps| > 0
    ensures SweptIn(steps, createdAt)
            <==> (steps[0].Sweep? && createdAt < steps[0].cutoff) || SweptIn(steps[1..], createdAt)
  {
    if i :| 0 <= i < |steps[1..]| && steps[1..][i].Sweep? && createdAt < steps[1..][i].cutoff {
      assert steps[i + 1] == steps[1..][i];
    }
    if i :| 0 < i < |steps| && steps[i].Sweep? && createdAt < steps[i].cutoff {
      assert steps[1..][i - 1] == steps[i];
    }
  }

  /** A stored event stays stored, unchanged, until a sweep whose cutoff is later than its timestamp. */
  lemma {:induction false} KeptUntilSwept(who: Listener, s: System, steps: seq<Step>, id: string)
    requires Inv(who, s) && LegalRun(who, s, steps) && id in s.table
    ensures var t := Exec(who, s, steps).table;
            && (id in t <==> !SweptIn(steps, s.table[id].createdAt)) && (id in t ==> t[id] == s.table[id])
    decreases |steps|
  {
    if |steps| > 0 {
      StepKeeps(who, s, steps[0]);
      SweptLater(steps, s.table[id].createdAt);
      if id in Apply(who, s, steps[0]).table {
        KeptUntilSwept(who, Apply(who, s, steps[0]), steps[1..], id);
      } else {
        NeverStoredAgain(who, Apply(who, s, steps[0]), steps[1..], id);
      }
    }
  }

  // An event id is published once.
  lemma {:induction false} NeverStoredAgain(who: Listener, s: System, steps: seq<Step>, id: string)
    requires Inv(who, s) && LegalRun(who, s, steps) && id in s.published && id !in s.table
    ensures id !in Exec(who, s, steps).table
    decreases |steps|
  {
    if |steps| > 0 {
      StepKeeps(who, s, steps[0]);
      NeverStoredAgain(who, Apply(who, s, steps[0]), steps[1..], id);
    }
  }

  // ---------- nothing is skipped ----------

  // The rows a step deletes were all handled or read, or of no concern to this connection.
  ghost predicate SweepsHandled(who: Listener, s: System, step: Step) {
    step.Sweep? ==>
      forall id <- s.table :: s.table[id].createdAt < step.cutoff && Relevant(s.table[id], who.owner, who.kinds) ==>
        id in s.cursor.handled || Lists(s.batch, id)
  }

  // A new row is no older than any row published before it.
  ghost predicate PublishesInOrder(s: System, step: Step) {
    step.Publish? ==>
      step.row.createdAt >= 0.0 && forall id <- s.published :: s.published[id].createdAt <= step.row.createdAt
  }

  ghost predicate Orderly(who: Listener, s: System, steps: seq<Step>)
    requires LegalRun(who, s, steps)
    decreases |steps|
  {
    |steps| == 0 ||
    (SweepsHandled(who, s, steps[0]) && PublishesInOrder(s, steps[0])
        && Orderly(who, Apply(who, s, steps[0]), steps[1..]))
  }

  // Not handled and not in the batch being sent: it is still in the table, not older than the
  // cursor, nor than anything in the batch.
  ghost predicate Ahead(s: System, id: string)
    requires id in s.published
  {
    && id in s.table && s.published[id].createdAt >= s.cursor.watermark
    && forall i :: 0 <= i < |s.batch| ==> s.batch[i].createdAt <= s.published[id].createdAt
  }

  ghost predicate NoneSkipped(who: Listener, s: System) {
    forall id <- s.published :: Relevant(s.published[id], who.owner, who.kinds)
                                ==> id in s.cursor.handled || Lists(s.batch, id) || Ahead(s, id)
  }

  lemma SendSkipsNone(who: Listener, s: System)
    requires Inv(who, s) && NoneSkipped(who, s) && s.batch != []
    ensures NoneSkipped(who, Apply(who, s, SendNext))
  {
    var s' := Apply(who, s, SendNext);
    forall id | id in s.published && Relevant(s.published[id], who.owner, who.kinds)
      ensures id in s'.cursor.handled || Lists(s'.batch, id) || Ahead(s', id)
    {
      if id !in s'.cursor.handled {
        if Lists(s.batch, id) {
          var i :| 0 <= i < |s.batch| && s.batch[i].id == id;
          assert s'.batch[i - 1] == s.batch[i];
        }
      }
    }
  }

  lemma ReadSkipsNone(who: Listener, s: System, events: seq<Event>)
    requires Inv(who, s) && NoneSkipped(who, s) && Legal(who, s, Read(events))
    ensures NoneSkipped(who, Apply(who, s, Read(events)))
  {
    forall id | id in s.published && Relevant(s.published[id], who.owner, who.kinds) && id !in s.cursor.handled
      ensures Lists(events, id)
    {
      assert !Lists(s.batch, id);
      assert Ahead(s, id);
      assert Selected(s.table, who.owner, who.kinds, s.cursor.watermark, s.cursor.sentAt, id);
    }
  }

  lemma PublishSkipsNone(who: Listener, s: System, id: string, row: Row)
    requires Inv(who, s) && NoneSkipped(who, s) && Legal(who, s, Publish(id, row))
      && PublishesInOrder(s, Publish(id, row))
    requires s.cursor.watermark == 0.0 || exists k :: k in s.published && s.published[k].createdAt == s.cursor.watermark
    ensures NoneSkipped(who, Apply(who, s, Publish(id, row)))
  {
    var s' := Apply(who, s, Publish(id, row));
    assert forall i :: 0 <= i < |s.batch| ==> Known(s.published, s.batch[i]);
    forall x | x in s'.published && Relevant(s'.published[x], who.owner, who.kinds)
      ensures x in s'.cursor.handled || Lists(s'.batch, x) || Ahead(s', x)
    {
      if x != id && Ahead(s, x) {
        assert Ahead(s', x);
      }
    }
  }

  // The watermark is where some handled event was.
  ghost predicate WatermarkSeen(s: System) {
    s.cursor.watermark == 0.0 || exists k :: k in s.published && s.published[k].createdAt == s.cursor.watermark
  }

  lemma WatermarkKept(who: Listener, s: System, step: Step)
    requires Inv(who, s) && WatermarkSeen(s) && Legal(who, s, step)
    ensures WatermarkSeen(Apply(who, s, step))
  {
    var s' := Apply(who, s, step);
    if step.SendNext? {
      assert Known(s.published, s.batch[0]);
    } else if s.cursor.watermark != 0.0 {
      var k :| k in s.published && s.published[k].createdAt == s.cursor.watermark;
      assert k in s'.published;
      if step.Publish? {
        assert s'.published[k] == s.published[k];
      }
    }
  }

  lemma {:induction false} OrderlyRunsSkipNone(who: Listener, s: System, steps: seq<Step>)
    requires Inv(who, s) && WatermarkSeen(s) && NoneSkipped(who, s) && LegalRun(who, s, steps) && Orderly(who, s, steps)
    ensures NoneSkipped(who, Exec(who, s, steps))
    decreases |steps|
  {
    if |steps| > 0 {
      match steps[0] {
        case Publish(id, row) => PublishSkipsNone(who, s, id, row);
        case Sweep(cutoff) => SweepSkipsNone(who, s, cutoff);
        case Read(events) => ReadSkipsNone(who, s, events);
        case SendNext => SendSkipsNone(who, s);
      }
      StepKeeps(who, s, steps[0]);
      WatermarkKept(who, s, steps[0]);
      OrderlyRunsSkipNone(who, Apply(who, s, steps[0]), steps[1..]);
    }
  }

  lemma SweepSkipsNone(who: Listener, s: System, cutoff: real)
    requires Inv(who, s) && NoneSkipped(who, s) && SweepsHandled(who, s, Sweep(cutoff))
    ensures NoneSkipped(who, Apply(who, s, Sweep(cutoff)))
  {
    var s' := Apply(who, s, Sweep(cutoff));
    forall id | id in s.published && Relevant(s.published[id], who.owner, who.kinds) && id !in s.cursor.handled
        && !Lists(s.batch, id)
      ensures Ahead(s', id)
    {
      assert Ahead(s, id);
    }
  }

  // ---------- a full poll ----------

  lemma {:induction false} HandleAllHandles(c: Cursor, events: seq<Event>)
    ensures forall id :: id in HandleAll(c, events).handled <==> id in c.handled || Lists(events, id)
    decreases |events|
  {
    if |events| > 0 {
      HandleAllHandles(Handle(c, events[0]), events[1..]);
      forall id ensures Lists(events, id) <==> id == events[0].id || Lists(events[1..], id) {
        if i :| 0 <= i < |events| && events[i].id == id {
          if i > 0 { assert events[1..][i - 1].id == id; }
        }
        if i :| 0 <= i < |events[1..]| && events[1..][i].id == id {
          assert events[i + 1].id == id;
        }
      }
    }
  }

  lemma {:induction false} HandleAllKeeps(who: Listener, published: Table, c: Cursor, events: seq<Event>)
    requires CursorOk(published, c) && BatchOk(published, c, events) && OnlyRelevant(who, published, c, events)
    ensures CursorOk(published, HandleAll(c, events)) && OnlyRelevant(who, published, HandleAll(c, events), [])
    decreases |events|
  {
    if |events| > 0 {
      HandleKeeps(published, c, events[0]);
      SendKeepsBatch(published, c, events);
      SendKeepsRelevant(who, published, c, events);
      HandleAllKeeps(who, published, Handle(c, events[0]), events[1..]);
    }
  }

  // Sent on the connection.
  ghost predicate Sent(c: Cursor, id: string) {
    Lists(c.sent, id)
  }

  // A correct cursor has sent exactly the well-formed events it handled.
  lemma SentIsHandled(published: Table, c: Cursor, id: string)
    requires CursorOk(published, c)
    ensures Sent(c, id) <==> id in c.handled && published[id].body.Json?
  {
  }

  // A poll as steps: the read, and a send for each event it returned.
  function Poll(events: seq<Event>): seq<Step> {
    [Read(events)] + Sends(|events|)
  }

  function Sends(n: nat): seq<Step> {
    if n == 0 then [] else [SendNext] + Sends(n - 1)
  }

  lemma {:induction false} SendsHandleAll(who: Listener, s: System)
    ensures LegalRun(who, s, Sends(|s.batch|))
    ensures Exec(who, s, Sends(|s.batch|)) == s.(cursor := HandleAll(s.cursor, s.batch), batch := [])
    decreases |s.batch|
  {
    if |s.batch| > 0 {
      var s' := Apply(who, s, SendNext);
      SendsHandleAll(who, s');
      assert Sends(|s.batch|)[1..] == Sends(|s'.batch|);
    }
  }

  /** The delivery loop is what the single sends of a poll do. */
  lemma PollHandlesAll(who: Listener, s: System, events: seq<Event>)
    requires Legal(who, s, Read(events))
    ensures LegalRun(who, s, Poll(events))
    ensures Exec(who, s, Poll(events)) == s.(cursor := HandleAll(s.cursor, events), batch := [])
  {
    assert Poll(events)[1..] == Sends(|events|);
    SendsHandleAll(who, Apply(who, s, Read(events)));
  }

  /** If rows become visible in timestamp order and none is swept unread, one more full poll
      leaves sent exactly the well-formed relevant events ever published, ties included. */
  lemma NothingIsSkipped(who: Listener, steps: seq<Step>, events: seq<Event>, id: string)
    requires LegalRun(who, Init(), steps) && Orderly(who, Init(), steps)
    requires Legal(who, Exec(who, Init(), steps), Read(events)) && id in Exec(who, Init(), steps).published
    ensures var s := Exec(who, Init(), steps);
            var row := s.published[id];
            Sent(HandleAll(s.cursor, events), id)
            <==> row.owner == who.owner && row.kind in who.kinds && row.body.Json?
  {
    RunKeeps(who, Init(), steps);
    OrderlyRunsSkipNone(who, Init(), steps);
    var s := Exec(who, Init(), steps);
    ReadKeeps(who, s, events);
    HandleAllKeeps(who, s.published, s.cursor, events);
    SentIsHandled(s.published, HandleAll(s.cursor, events), id);
    if Relevant(s.published[id], who.owner, who.kinds) {
      NoneLeft(who, s, events, id);
    }
  }

  lemma NoneLeft(who: Listener, s: System, events: seq<Event>, id: string)
    requires Inv(who, s) && NoneSkipped(who, s) && Legal(who, s, Read(events))
    requires id in s.published && Relevant(s.published[id], who.owner, who.kinds)
    ensures id in HandleAll(s.cursor, events).handled
  {
    HandleAllHandles(s.cursor, events);
    if id !in s.cursor.handled {
      assert !Lists(s.batch, id) && Ahead(s, id);
      assert Selected(s.table, who.owner, who.kinds, s.cursor.watermark, s.cursor.sentAt, id);
    }
  }

  /** Without those conditions, a full poll leaves a stored, relevant event sent exactly when it is
      well formed, and was sent before or is not older than the cursor. */
  lemma PollSendsExactly(who: Listener, s: System, events: seq<Event>, id: string)
    requires Inv(who, s) && Legal(who, s, Read(events))
    requires id in s.table
    ensures var row := s.table[id];
            Sent(HandleAll(s.cursor, events), id)
            <==> row.owner == who.owner && row.kind in who.kinds && row.body.Json?
                 && (Sent(s.cursor, id) || row.createdAt >= s.cursor.watermark)
  {
    ReadKeeps(who, s, events);
    HandleAllKeeps(who, s.published, s.cursor, events);
    SentIsHandled(s.published, HandleAll(s.cursor, events), id);
    SentIsHandled(s.published, s.cursor, id);
    HandleAllHandles(s.cursor, events);
    if id !in s.cursor.handled {
      assert Selected(s.table, who.owner, who.kinds, s.cursor.watermark, s.cursor.sentAt, id)
             <==> Relevant(s.table[id], who.owner, who.kinds) && s.table[id].createdAt >= s.cursor.watermark;
    }
  }

  lemma {:induction false} LateStaysUnhandled(who: Listener, s: System, steps: seq<Step>, id: string)
    requires Inv(who, s) && LegalRun(who, s, steps) && id in s.published
    requires id !in s.cursor.handled && !Lists(s.batch, id) && s.published[id].createdAt < s.cursor.watermark
    ensures var s' := Exec(who, s, steps);
            id in s'.published && s'.published[id] == s.published[id] && id !in s'.cursor.handled
    decreases |steps|
  {
    if |steps| > 0 {
      var s' := Apply(who, s, steps[0]);
      StepKeeps(who, s, steps[0]);
      assert id !in s'.cursor.handled && !Lists(s'.batch, id) && s'.published[id] == s.published[id] by {
        if steps[0].SendNext? {
          assert s.batch[0].id != id;
          assert forall i :: 0 <= i < |s'.batch| ==> s'.batch[i] == s.batch[i + 1];
        }
      }
      LateStaysUnhandled(who, s', steps[1..], id);
    }
  }

  lemma {:induction false} MalformedIsNeverSent(who: Listener, s: System, steps: seq<Step>, id: string)
    requires Inv(who, s) && LegalRun(who, s, steps) && id in s.published && !s.published[id].body.Json?
    ensures !Sent(Exec(who, s, steps).cursor, id)
    decreases |steps|
  {
    SentIsHandled(s.published, s.cursor, id);
    if |steps| > 0 {
      StepKeeps(who, s, steps[0]);
      MalformedIsNeverSent(who, Apply(who, s, steps[0]), steps[1..], id);
    }
  }

  /** So an event that becomes visible behind the cursor is never sent on this connection. */
  lemma LateEventsAreNeverSent(who: Listener, s: System, steps: seq<Step>, id: string)
    requires Inv(who, s) && LegalRun(who, s, steps) && id in s.published
    requires !Sent(s.cursor, id) && !Lists(s.batch, id) && s.published[id].createdAt < s.cursor.watermark
    ensures !Sent(Exec(who, s, steps).cursor, id)
  {
    SentIsHandled(s.published, s.cursor, id);
    if s.published[id].body.Json? {
      LateStaysUnhandled(who, s, steps, id);
      RunKeeps(who, s, steps);
      SentIsHandled(Exec(who, s, steps).published, Exec(who, s, steps).cursor, id);
    } else {
      MalformedIsNeverSent(who, s, steps, id);
    }
  }

  // An event stamped 2.0 is sent before one stamped 1.0 becomes visible.
  function EarlyRow(who: Listener, kind: string): Row {
    Row(who.owner, kind, 2.0, Json("{}"))
  }

  function LateRow(who: Listener, kind: string): Row {
    Row(who.owner, kind, 1.0, Json("{}"))
  }

  function LateRun(who: Listener, kind: string): seq<Step> {
    [Publish("a", EarlyRow(who, kind))] + ([Read([EARLY])] + ([SendNext] + ([Publish("b", LateRow(who, kind))] + [])))
  }

  const EARLY := Event("a", 2.0, Json("{}"))

  function AfterSend(who: Listener, kind: string): System {
    var t := map["a" := EarlyRow(who, kind)];
    System(t, t, Cursor(2.0, {"a"}, {"a"}, [EARLY]), [])
  }

  // Where the run ends.
  function LateState(who: Listener, kind: string): System {
    var s := AfterSend(who, kind);
    s.(table := s.table["b" := LateRow(who, kind)], published := s.published["b" := LateRow(who, kind)])
  }

  lemma StepThen(who: Listener, s: System, step: Step, rest: seq<Step>)
    requires Legal(who, s, step) && LegalRun(who, Apply(who, s, step), rest)
    ensures LegalRun(who, s, [step] + rest) && Exec(who, s, [step] + rest) == Exec(who, Apply(who, s, step), rest)
  {
    assert ([step] + rest)[1..] == rest;
  }

  lemma EarlyIsRead(who: Listener, kind: string, s: System)
    requires kind in who.kinds && s == Apply(who, Init(), Publish("a", EarlyRow(who, kind)))
    ensures Legal(who, s, Read([EARLY]))
  {
    assert [EARLY][0].id == "a";
    assert Lists([EARLY], "a");
  }

  lemma LateRunReaches(who: Listener, kind: string)
    requires kind in who.kinds
    ensures LegalRun(who, Init(), LateRun(who, kind)) && Exec(who, Init(), LateRun(who, kind)) == LateState(who, kind)
  {
    var s1 := Apply(who, Init(), Publish("a", EarlyRow(who, kind)));
    EarlyIsRead(who, kind, s1);
    var s2 := Apply(who, s1, Read([EARLY]));
    var s3 := Apply(who, s2, SendNext);
    assert s3 == AfterSend(who, kind) by {
      assert [EARLY][1..] == [];
    }
    var last := Publish("b", LateRow(who, kind));
    assert Apply(who, s3, last) == LateState(who, kind);
    StepThen(who, s3, last, []);
    StepThen(who, s2, SendNext, [last] + []);
    StepThen(who, s1, Read([EARLY]), [SendNext] + ([last] + []));
    StepThen(who, Init(), Publish("a", EarlyRow(who, kind)), [Read([EARLY])] + ([SendNext] + ([last] + [])));
  }

  /** The loss is real: after this run from the start the second event is stored and relevant, and
      no continuation ever sends it. */
  lemma ALateEventIsLost(who: Listener, kind: string, more: seq<Step>)
    requires kind in who.kinds && LegalRun(who, LateState(who, kind), more)
    ensures LegalRun(who, Init(), LateRun(who, kind)) && Exec(who, Init(), LateRun(who, kind)) == LateState(who, kind)
    ensures var s := LateState(who, kind);
            && "b" in s.table && s.table["b"].body.Json?
            && s.table["b"].owner == who.owner && s.table["b"].kind in who.kinds
            && !Sent(Exec(who, s, more).cursor, "b")
  {
    LateRunReaches(who, kind);
    RunKeeps(who, Init(), LateRun(who, kind));
    LateEventsAreNeverSent(who, LateState(who, kind), more, "b");
  }
}
