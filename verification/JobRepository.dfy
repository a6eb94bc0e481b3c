/**
 The queue's repository as it works on the table, and the proof that a batched fan-out is
 the same as enqueuing its entries one by one.
 */
module JobRepository {
  import opened Options
  import opened JobTable
  import opened JobRuns

  const ENQUEUE_UPSERT_CHUNK_SIZE := 80

  /** An entry together with the id generated for it. */
  datatype Item = Item(entry: Entry, id: string)

  // ---------- one by one ----------

  ghost function EnqueueAll(t: Table, lane: Lane, items: seq<Item>): Table {
    if |items| == 0 then t
    else
      var n := |items| - 1;
      Enqueue(EnqueueAll(t, lane, items[..n]), lane, items[n].entry, items[n].id)
  }

  ghost function EnqueueAllIds(t: Table, lane: Lane, items: seq<Item>): seq<string> {
    if |items| == 0 then []
    else
      var n := |items| - 1;
      EnqueueAllIds(t, lane, items[..n])
          + [EnqueuedId(EnqueueAll(t, lane, items[..n]), lane, items[n].entry, items[n].id)]
  }

  // ---------- plain entries first, keyed entries after ----------

  // The table with the rows of the entries that have no dedup key.
  ghost function AddPlain(t: Table, lane: Lane, items: seq<Item>): Table {
    if |items| == 0 then t
    else
      var n := |items| - 1;
      var before := AddPlain(t, lane, items[..n]);
      if items[n].entry.dedupKey.None? then before[items[n].id := NewRow(lane, items[n].entry)] else before
  }

  ghost function Keyed(items: seq<Item>): seq<Item> {
    if |items| == 0 then []
    else
      var n := |items| - 1;
      if items[n].entry.dedupKey.Some? then Keyed(items[..n]) + [items[n]] else Keyed(items[..n])
  }

  ghost predicate Fresh(t: Table, items: seq<Item>) {
    && (forall i :: 0 <= i < |items| ==> items[i].id !in t)
    && (forall i, j :: 0 <= i < j < |items| ==> items[i].id != items[j].id)
  }

  ghost predicate AllKeyed(items: seq<Item>) {
    forall i :: 0 <= i < |items| ==> items[i].entry.dedupKey.Some?
  }

  // The keyed entries are a selection of all entries, still with distinct ids.
  lemma {:induction false} KeyedFacts(t: Table, items: seq<Item>, other: string)
    requires Fresh(t, items) && forall i :: 0 <= i < |items| ==> items[i].id != other
    ensures Fresh(t, Keyed(items))
    ensures forall i :: 0 <= i < |Keyed(items)| ==> Keyed(items)[i].id != other
    ensures forall i :: 0 <= i < |Keyed(items)| ==> Keyed(items)[i] in items
  {
    if |items| > 0 {
      var n := |items| - 1;
      KeyedFacts(t, items[..n], items[n].id);
      KeyedFacts(t, items[..n], other);
    }
  }

  // Whoever waits for a key of this kind goes on waiting.
  ghost predicate KeepsWaiting(t: Table, t': Table, kind: string) {
    forall k, key :: k in t && Waits(t[k], kind, key) ==> k in t' && Waits(t'[k], kind, key)
  }

  // What RETURNING said: each key with the row that waits for it.
  ghost predicate Returned(t: Table, kind: string, returned: map<string, string>) {
    forall key <- returned :: returned[key] in t && Waits(t[returned[key]], kind, key)
  }

  lemma ReturnedStep(t: Table, t': Table, kind: string, returned: map<string, string>, key: string, id: string)
    requires Returned(t, kind, returned) && KeepsWaiting(t, t', kind) && id in t' && Waits(t'[id], kind, key)
    ensures Returned(t', kind, returned[key := id])
  {
  }

  lemma KeepsWaitingTrans(a: Table, b: Table, c: Table, kind: string)
    requires KeepsWaiting(a, b, kind) && KeepsWaiting(b, c, kind)
    ensures KeepsWaiting(a, c, kind)
  {
  }

  // An enqueue adds at most its own id, keeps the index, and keeps who waits for a key.
  lemma EnqueueFacts(t: Table, lane: Lane, e: Entry, id: string)
    requires UniquePending(t) && id !in t
    ensures var t' := Enqueue(t, lane, e, id);
            && UniquePending(t')
            && (forall k <- t' :: k in t || k == id)
            && KeepsWaiting(t, t', lane.kind)
            && (e.dedupKey.Some? ==> EnqueuedId(t, lane, e, id) in t'
                                     && Waits(t'[EnqueuedId(t, lane, e, id)], lane.kind, e.dedupKey.value))
  {
  }

  // A keyed enqueue and a plain row do not interfere.
  lemma PlainCommutes(t: Table, lane: Lane, plain: Entry, id: string, e: Entry, keyedId: string)
    requires UniquePending(t) && plain.dedupKey.None? && e.dedupKey.Some?
    requires id !in t && keyedId !in t && id != keyedId
    ensures Enqueue(t[id := NewRow(lane, plain)], lane, e, keyedId)
      == Enqueue(t, lane, e, keyedId)[id := NewRow(lane, plain)]
    ensures UniquePending(t[id := NewRow(lane, plain)])
  {
    var t' := t[id := NewRow(lane, plain)];
    var key := e.dedupKey.value;
    assert UniquePending(t');
    if SomeWaits(t, lane.kind, key) {
      var old_ := Waiting(t, lane.kind, key);
      assert t'[old_] == t[old_];
      assert SomeWaits(t', lane.kind, key);
      assert Waiting(t', lane.kind, key) == old_;
    } else {
      assert !SomeWaits(t', lane.kind, key);
    }
  }

  lemma {:induction false} EnqueueAllFacts(t: Table, lane: Lane, items: seq<Item>)
    requires UniquePending(t) && Fresh(t, items)
    ensures UniquePending(EnqueueAll(t, lane, items))
    ensures forall k <- EnqueueAll(t, lane, items) :: k in t || exists i :: 0 <= i < |items| && k == items[i].id
  {
    if |items| > 0 {
      var n := |items| - 1;
      EnqueueAllFacts(t, lane, items[..n]);
      EnqueueFacts(EnqueueAll(t, lane, items[..n]), lane, items[n].entry, items[n].id);
    }
  }

  lemma {:induction false} PlainCommutesAll(t: Table, lane: Lane, plain: Item, items: seq<Item>)
    requires UniquePending(t) && Fresh(t, items) && AllKeyed(items)
    requires plain.entry.dedupKey.None? && plain.id !in t && forall i :: 0 <= i < |items| ==> items[i].id != plain.id
    ensures EnqueueAll(t[plain.id := NewRow(lane, plain.entry)], lane, items)
            == EnqueueAll(t, lane, items)[plain.id := NewRow(lane, plain.entry)]
  {
    if |items| > 0 {
      var n := |items| - 1;
      PlainCommutesAll(t, lane, plain, items[..n]);
      EnqueueAllFacts(t, lane, items[..n]);
      PlainCommutes(EnqueueAll(t, lane, items[..n]), lane, plain.entry, plain.id, items[n].entry, items[n].id);
    }
  }

  lemma {:induction false} PlainFacts(t: Table, lane: Lane, items: seq<Item>)
    requires UniquePending(t) && Fresh(t, items)
    ensures UniquePending(AddPlain(t, lane, items)) && OnlyPlainAdded(t, lane, items)
    ensures Fresh(AddPlain(t, lane, items), Keyed(items))
  {
    PlainAdds(t, lane, items);
    if |items| > 0 {
      var n := |items| - 1;
      PlainFacts(t, lane, items[..n]);
      KeyedFacts(t, items[..n], items[n].id);
      PlainFresh(t, lane, items, Keyed(items[..n]));
    }
  }

  ghost predicate OnlyPlainAdded(t: Table, lane: Lane, items: seq<Item>) {
    forall k <- AddPlain(t, lane, items) :: k in t || exists i :: 0 <= i < |items| && k == items[i].id
  }

  lemma {:induction false} PlainAdds(t: Table, lane: Lane, items: seq<Item>)
    requires UniquePending(t) && Fresh(t, items)
    ensures UniquePending(AddPlain(t, lane, items)) && OnlyPlainAdded(t, lane, items)
  {
    if |items| > 0 {
      PlainAdds(t, lane, items[..|items| - 1]);
    }
  }

  lemma PlainFresh(t: Table, lane: Lane, items: seq<Item>, keyed: seq<Item>)
    requires |items| > 0 && Fresh(t, items) && OnlyPlainAdded(t, lane, items[..|items| - 1])
    requires keyed == Keyed(items[..|items| - 1]) && Fresh(AddPlain(t, lane, items[..|items| - 1]), keyed)
    requires forall i :: 0 <= i < |keyed| ==> keyed[i].id != items[|items| - 1].id
    ensures Fresh(AddPlain(t, lane, items), Keyed(items))
  {
    var n := |items| - 1;
    assert items[n].id !in AddPlain(t, lane, items[..n]);
  }

  /** Adding the plain rows first and the keyed ones after gives the table of the one-by-one
      enqueues. */
  lemma {:induction false} OrderDoesNotMatter(t: Table, lane: Lane, items: seq<Item>)
    requires UniquePending(t) && Fresh(t, items)
    ensures EnqueueAll(t, lane, items) == EnqueueAll(AddPlain(t, lane, items), lane, Keyed(items))
  {
    if |items| > 0 {
      var n := |items| - 1;
      var plain, keyed := AddPlain(t, lane, items[..n]), Keyed(items[..n]);
      OrderDoesNotMatter(t, lane, items[..n]);
      PlainFacts(t, lane, items[..n]);
      KeyedFacts(t, items[..n], items[n].id);
      KeyedAreKeyed(items[..n]);
      if items[n].entry.dedupKey.Some? {
        assert (keyed + [items[n]])[..|keyed|] == keyed;
      } else {
        PlainCommutesAll(plain, lane, items[n], keyed);
      }
    }
  }

  // ---------- which id each entry gets ----------

  // A keyed entry gets the row that finally waits for its key, any other entry its own.
  ghost predicate IdOf(final: Table, lane: Lane, item: Item, jobId: string) {
    if item.entry.dedupKey.None? then jobId == item.id
    else jobId in final && Waits(final[jobId], lane.kind, item.entry.dedupKey.value)
  }

  ghost predicate IdsOf(final: Table, lane: Lane, items: seq<Item>, jobIds: seq<string>) {
    |jobIds| == |items| && forall i :: 0 <= i < |items| ==> IdOf(final, lane, items[i], jobIds[i])
  }

  lemma LastUnfolds(t: Table, lane: Lane, items: seq<Item>)
    requires |items| > 0
    ensures var n := |items| - 1;
            var before := EnqueueAll(t, lane, items[..n]);
            && EnqueueAll(t, lane, items) == Enqueue(before, lane, items[n].entry, items[n].id)
            && EnqueueAllIds(t, lane, items) == EnqueueAllIds(t, lane, items[..n])
               + [EnqueuedId(before, lane, items[n].entry, items[n].id)]
  {
  }

  lemma LastIsFresh(t: Table, lane: Lane, items: seq<Item>)
    requires |items| > 0 && UniquePending(t) && Fresh(t, items)
    ensures var before := EnqueueAll(t, lane, items[..|items| - 1]);
            UniquePending(before) && items[|items| - 1].id !in before
  {
    EnqueueAllFacts(t, lane, items[..|items| - 1]);
  }

  lemma {:induction false} OneByOneIds(t: Table, lane: Lane, items: seq<Item>)
    requires UniquePending(t) && Fresh(t, items)
    ensures IdsOf(EnqueueAll(t, lane, items), lane, items, EnqueueAllIds(t, lane, items))
  {
    if |items| > 0 {
      var n := |items| - 1;
      var before, ids := EnqueueAll(t, lane, items[..n]), EnqueueAllIds(t, lane, items[..n]);
      OneByOneIds(t, lane, items[..n]);
      LastIsFresh(t, lane, items);
      IdsStep(before, lane, items[..n], ids, items[n]);
      assert items[..n] + [items[n]] == items;
      LastUnfolds(t, lane, items);
    }
  }

  lemma IdsStep(t: Table, lane: Lane, items: seq<Item>, jobIds: seq<string>, item: Item)
    requires UniquePending(t) && IdsOf(t, lane, items, jobIds) && item.id !in t
    ensures IdsOf(Enqueue(t, lane, item.entry, item.id), lane, items + [item],
                  jobIds + [EnqueuedId(t, lane, item.entry, item.id)])
  {
    EnqueueFacts(t, lane, item.entry, item.id);
    var t' := Enqueue(t, lane, item.entry, item.id);
    forall i | 0 <= i < |items| ensures IdOf(t', lane, items[i], jobIds[i]) {
      assert IdOf(t, lane, items[i], jobIds[i]);
    }
  }

  lemma IdsUnique(final: Table, lane: Lane, items: seq<Item>, a: seq<string>, b: seq<string>)
    requires UniquePending(final) && IdsOf(final, lane, items, a) && IdsOf(final, lane, items, b)
    ensures a == b
  {
    forall i | 0 <= i < |a| ensures a[i] == b[i] {
      assert IdOf(final, lane, items[i], a[i]) && IdOf(final, lane, items[i], b[i]);
    }
  }

  // A batch after a batch is the longer batch.
  lemma {:induction false} EnqueueAllAppend(t: Table, lane: Lane, xs: seq<Item>, ys: seq<Item>)
    ensures EnqueueAll(t, lane, xs + ys) == EnqueueAll(EnqueueAll(t, lane, xs), lane, ys)
  {
    if |ys| == 0 {
      assert xs + ys == xs;
    } else {
      assert (xs + ys)[..|xs + ys| - 1] == xs + ys[..|ys| - 1];
      EnqueueAllAppend(t, lane, xs, ys[..|ys| - 1]);
    }
  }

  lemma ChunkIsFresh(base: Table, lane: Lane, all: seq<Item>, start: nat, end: nat)
    requires start <= end <= |all| && UniquePending(base) && Fresh(base, all)
    ensures UniquePending(EnqueueAll(base, lane, all[..start]))
      && Fresh(EnqueueAll(base, lane, all[..start]), all[start..end])
  {
    EnqueueAllFacts(base, lane, all[..start]);
  }

  lemma ChunkExtends(base: Table, lane: Lane, all: seq<Item>, start: nat, end: nat)
    requires start <= end <= |all|
    ensures EnqueueAll(EnqueueAll(base, lane, all[..start]), lane, all[start..end])
      == EnqueueAll(base, lane, all[..end])
  {
    assert all[..end] == all[..start] + all[start..end];
    EnqueueAllAppend(base, lane, all[..start], all[start..end]);
  }

  lemma {:induction false} KeyedAreKeyed(items: seq<Item>)
    ensures AllKeyed(Keyed(items))
  {
    if |items| > 0 {
      KeyedAreKeyed(items[..|items| - 1]);
    }
  }

  lemma UpsertStep(t: Table, lane: Lane, chunk: seq<Item>, j: nat)
    requires UniquePending(t) && Fresh(t, chunk) && AllKeyed(chunk) && j < |chunk|
    ensures var before, after := EnqueueAll(t, lane, chunk[..j]), EnqueueAll(t, lane, chunk[..j + 1]);
            var e, id := chunk[j].entry, chunk[j].id;
            && UniquePending(before) && after == Enqueue(before, lane, e, id) && KeepsWaiting(before, after, lane.kind)
            && EnqueuedId(before, lane, e, id) in after
               && Waits(after[EnqueuedId(before, lane, e, id)], lane.kind, e.dedupKey.value)
  {
    assert chunk[..j + 1][..j] == chunk[..j];
    EnqueueAllFacts(t, lane, chunk[..j]);
    EnqueueFacts(EnqueueAll(t, lane, chunk[..j]), lane, chunk[j].entry, chunk[j].id);
  }

  // The collected positions: those of the keyed entries, all of them, in order.
  ghost predicate Selects(keyed: seq<nat>, items: seq<Item>) {
    && |keyed| == |Keyed(items)|
    && (forall j :: 0 <= j < |keyed| ==> keyed[j] < |items| && items[keyed[j]] == Keyed(items)[j])
    && (forall p: nat :: p < |items| && items[p].entry.dedupKey.Some? ==> exists j :: 0 <= j < |keyed| && keyed[j] == p)
  }

  // The positions whose id is known once the first `done` keyed entries are written.
  ghost predicate Filled(t: Table, lane: Lane, items: seq<Item>, keyed: seq<nat>, done: nat, jobIds: seq<string>)
    requires done <= |keyed| && forall j :: 0 <= j < |keyed| ==> keyed[j] < |items|
  {
    && |jobIds| == |items|
    && (forall i :: 0 <= i < |items| && items[i].entry.dedupKey.None? ==> jobIds[i] == items[i].id)
    && (forall j :: 0 <= j < done ==> IdOf(t, lane, items[keyed[j]], jobIds[keyed[j]]))
  }

  lemma FilledStays(t: Table, t': Table, lane: Lane, items: seq<Item>, keyed: seq<nat>, done: nat, jobIds: seq<string>)
    requires done <= |keyed| && forall j :: 0 <= j < |keyed| ==> keyed[j] < |items|
    requires Filled(t, lane, items, keyed, done, jobIds) && KeepsWaiting(t, t', lane.kind)
    ensures Filled(t', lane, items, keyed, done, jobIds)
  {
  }

  lemma FilledIsIdsOf(t: Table, lane: Lane, items: seq<Item>, keyed: seq<nat>, jobIds: seq<string>)
    requires forall j :: 0 <= j < |keyed| ==> keyed[j] < |items|
    requires forall p: nat :: p < |items| && items[p].entry.dedupKey.Some? ==>
      exists j :: 0 <= j < |keyed| && keyed[j] == p
    requires Filled(t, lane, items, keyed, |keyed|, jobIds)
    ensures IdsOf(t, lane, items, jobIds)
  {
    forall i | 0 <= i < |items| ensures IdOf(t, lane, items[i], jobIds[i]) {
      if items[i].entry.dedupKey.Some? {
        var j :| 0 <= j < |keyed| && keyed[j] == i;
      }
    }
  }

  lemma BatchIsOneByOne(t: Table, lane: Lane, items: seq<Item>, keyed: seq<nat>, jobIds: seq<string>)
    requires UniquePending(t) && Fresh(t, items) && Selects(keyed, items)
    requires Filled(EnqueueAll(AddPlain(t, lane, items), lane, Keyed(items)), lane, items, keyed, |keyed|, jobIds)
    ensures EnqueueAll(AddPlain(t, lane, items), lane, Keyed(items)) == EnqueueAll(t, lane, items)
    ensures jobIds == EnqueueAllIds(t, lane, items)
  {
    OrderDoesNotMatter(t, lane, items);
    OneByOneIds(t, lane, items);
    EnqueueAllFacts(t, lane, items);
    FilledIsIdsOf(EnqueueAll(t, lane, items), lane, items, keyed, jobIds);
    IdsUnique(EnqueueAll(t, lane, items), lane, items, jobIds, EnqueueAllIds(t, lane, items));
  }

  method ChunkOf(items: seq<Item>, keyed: seq<nat>, start: nat, end: nat) returns (chunk: seq<Item>)
    requires start <= end <= |keyed| && Selects(keyed, items)
    ensures chunk == Keyed(items)[start..end] && AllKeyed(chunk)
    ensures forall j :: 0 <= j < end - start ==> chunk[j] == items[keyed[start + j]]
  {
    KeyedAreKeyed(items);
    chunk := seq(end - start, j requires 0 <= j < end - start => items[keyed[start + j]]);
  }

  method FillIds(ghost t: Table, ghost lane: Lane, items: seq<Item>, keyed: seq<nat>, start: nat, end: nat,
                 chunk: seq<Item>, returned: map<string, string>, given: seq<string>)
    returns (jobIds: seq<string>)
    requires start <= end <= |keyed| && forall j :: 0 <= j < |keyed| ==> keyed[j] < |items|
    requires |chunk| == end - start && AllKeyed(chunk)
      && forall j :: 0 <= j < |chunk| ==> chunk[j] == items[keyed[start + j]]
    requires Filled(t, lane, items, keyed, start, given) && Returned(t, lane.kind, returned)
    requires forall j :: 0 <= j < |chunk| ==> chunk[j].entry.dedupKey.value in returned
    ensures Filled(t, lane, items, keyed, end, jobIds)
  {
    jobIds := given;
    for j := 0 to |chunk|
      invariant Filled(t, lane, items, keyed, start + j, jobIds)
    {
      jobIds := jobIds[keyed[start + j] := returned[chunk[j].entry.dedupKey.value]];
    }
  }

  /** An enqueue never demotes, re-keys or removes a row. */
  lemma PriorityNeverRegresses(t: Table, lane: Lane, e: Entry, id: string)
    requires UniquePending(t) && id !in t
    ensures forall k <- t :: k in Enqueue(t, lane, e, id)
                             && Enqueue(t, lane, e, id)[k].priority <= t[k].priority
                             && Identity(Enqueue(t, lane, e, id)[k]) == Identity(t[k])
    ensures EnqueuedId(t, lane, e, id) in Enqueue(t, lane, e, id)
    ensures Enqueue(t, lane, e, id)[EnqueuedId(t, lane, e, id)].priority <= lane.priority
  {
  }

  // ---------- the repository ----------

  datatype FailOutcome = NoSuchJob | Superseded | Became(status: Status) | IndexConflict

  class Repository {
    var table: Table

    // One upsert: re-arm the pending row of the key, or insert a new one.
    method Upsert(lane: Lane, e: Entry, key: string, id: string) returns (jobId: string)
      requires e.dedupKey == Some(key) && UniquePending(table)
      modifies this
      ensures table == Enqueue(old(table), lane, e, id) && jobId == EnqueuedId(old(table), lane, e, id)
    {
      if k :| k in table && Waits(table[k], lane.kind, key) {
        assert SomeWaits(table, lane.kind, key);
        assert k == Waiting(table, lane.kind, key);
        jobId := k;
        table := table[k := Rearm(table[k], lane)];
      } else {
        jobId := id;
        table := table[id := NewRow(lane, e)];
      }
    }

    method EnqueueInSession(lane: Lane, e: Entry, id: string) returns (jobId: string)
      requires UniquePending(table) && id !in table
      modifies this
      ensures table == Enqueue(old(table), lane, e, id) && jobId == EnqueuedId(old(table), lane, e, id)
    {
      if e.dedupKey.None? {
        jobId := id;
        table := table[id := NewRow(lane, e)];
      } else {
        jobId := Upsert(lane, e, e.dedupKey.value, id);
      }
    }

    // The first pass: entries without a key are added, the others' positions collected.
    method AddPlainEntries(lane: Lane, items: seq<Item>) returns (jobIds: seq<string>, keyed: seq<nat>)
      modifies this
      ensures table == AddPlain(old(table), lane, items)
      ensures Selects(keyed, items) && Filled(table, lane, items, keyed, 0, jobIds)
    {
      jobIds := seq(|items|, _ => "");
      keyed := [];
      for i := 0 to |items|
        invariant |jobIds| == |items| && |keyed| == |Keyed(items[..i])|
        invariant table == AddPlain(old(table), lane, items[..i])
        invariant forall j :: 0 <= j < |keyed| ==> keyed[j] < i && items[keyed[j]] == Keyed(items[..i])[j]
        invariant forall p: nat :: p < i && items[p].entry.dedupKey.Some? ==>
          exists j :: 0 <= j < |keyed| && keyed[j] == p
        invariant forall j :: 0 <= j < i && items[j].entry.dedupKey.None? ==> jobIds[j] == items[j].id
      {
        assert items[..i + 1][..i] == items[..i];
        if items[i].entry.dedupKey.None? {
          table := table[items[i].id := NewRow(lane, items[i].entry)];
          jobIds := jobIds[i := items[i].id];
        } else {
          ghost var before := keyed;
          keyed := keyed + [i];
          assert keyed[|before|] == i && forall j :: 0 <= j < |before| ==> keyed[j] == before[j];
        }
      }
      assert items[..|items|] == items;
    }

    // One multi-row upsert statement over a chunk: rows conflict in insertion order, and
    // RETURNING is collected by key.
    method UpsertChunk(lane: Lane, chunk: seq<Item>) returns (returned: map<string, string>)
      requires UniquePending(table) && Fresh(table, chunk) && AllKeyed(chunk)
      modifies this
      ensures table == EnqueueAll(old(table), lane, chunk) && UniquePending(table)
      ensures forall j :: 0 <= j < |chunk| ==> chunk[j].entry.dedupKey.value in returned
      ensures Returned(table, lane.kind, returned) && KeepsWaiting(old(table), table, lane.kind)
    {
      returned := map[];
      for j := 0 to |chunk|
        invariant table == EnqueueAll(old(table), lane, chunk[..j])
        invariant forall i :: 0 <= i < j ==> chunk[i].entry.dedupKey.value in returned
        invariant Returned(table, lane.kind, returned) && KeepsWaiting(old(table), table, lane.kind)
      {
        var e, id := chunk[j].entry, chunk[j].id;
        UpsertStep(old(table), lane, chunk, j);
        ghost var before := table;
        var jobId := Upsert(lane, e, e.dedupKey.value, id);
        ReturnedStep(before, table, lane.kind, returned, e.dedupKey.value, jobId);
        KeepsWaitingTrans(old(table), before, table, lane.kind);
        returned := returned[e.dedupKey.value := jobId];
      }
      EnqueueAllFacts(old(table), lane, chunk);
      assert chunk[..|chunk|] == chunk;
    }

    // One round of the second pass: a chunk is upserted and its ids filled in.
    method WriteChunk(lane: Lane, items: seq<Item>, keyed: seq<nat>, start: nat, end: nat, given: seq<string>,
                      ghost base: Table)
      returns (jobIds: seq<string>)
      requires start <= end <= |keyed| && Selects(keyed, items) && UniquePending(base) && Fresh(base, Keyed(items))
      requires table == EnqueueAll(base, lane, Keyed(items)[..start]) && Filled(table, lane, items, keyed, start, given)
      modifies this
      ensures table == EnqueueAll(base, lane, Keyed(items)[..end]) && Filled(table, lane, items, keyed, end, jobIds)
    {
      var chunk := ChunkOf(items, keyed, start, end);
      ChunkIsFresh(base, lane, Keyed(items), start, end);
      ghost var before := table;
      var returned := UpsertChunk(lane, chunk);
      ChunkExtends(base, lane, Keyed(items), start, end);
      FilledStays(before, table, lane, items, keyed, start, given);
      jobIds := FillIds(table, lane, items, keyed, start, end, chunk, returned, given);
    }

    /** The batched fan-out leaves the table, and returns the ids, of enqueuing the entries one
        by one with the same generated ids. */
    method EnqueueMany(lane: Lane, items: seq<Item>) returns (jobIds: seq<string>)
      requires UniquePending(table) && Fresh(table, items)
      modifies this
      ensures table == EnqueueAll(old(table), lane, items)
      ensures jobIds == EnqueueAllIds(old(table), lane, items)
    {
      var keyed;
      jobIds, keyed := AddPlainEntries(lane, items);
      PlainFacts(old(table), lane, items);
      jobIds := WriteChunks(lane, items, keyed, jobIds);
      BatchIsOneByOne(old(table), lane, items, keyed, jobIds);
    }

    // The second pass, batch by batch.
    method WriteChunks(lane: Lane, items: seq<Item>, keyed: seq<nat>, given: seq<string>) returns (jobIds: seq<string>)
      requires UniquePending(table) && Fresh(table, Keyed(items)) && Selects(keyed, items)
      requires Filled(table, lane, items, keyed, 0, given)
      modifies this
      ensures table == EnqueueAll(old(table), lane, Keyed(items)) && Filled(table, lane, items, keyed, |keyed|, jobIds)
    {
      jobIds := given;
      var start := 0;
      while start < |keyed|
        invariant start <= |keyed|
        invariant table == EnqueueAll(old(table), lane, Keyed(items)[..start])
        invariant Filled(table, lane, items, keyed, start, jobIds)
      {
        var end := if start + ENQUEUE_UPSERT_CHUNK_SIZE <= |keyed| then start + ENQUEUE_UPSERT_CHUNK_SIZE else |keyed|;
        jobIds := WriteChunk(lane, items, keyed, start, end, jobIds, old(table));
        start := end;
      }
      assert Keyed(items)[..|keyed|] == Keyed(items);
    }

    // The claim statement: the most urgent eligible row, if any, becomes this worker's.
    method ClaimJob(worker: string, now: real, staleAfter: real) returns (picked: Option<string>)
      modifies this
      ensures Picks(old(table), now, now - staleAfter, picked)
      ensures table == Claim(old(table), worker, now, picked)
    {
      picked := None;
      var rest := table.Keys;
      while rest != {}
        invariant table == old(table) && rest <= table.Keys
        invariant picked.Some? ==> picked.value in table && Eligible(table, picked.value, now, now - staleAfter)
        invariant forall id <- table.Keys - rest :: Eligible(table, id, now, now - staleAfter)
                                                    ==> picked.Some? && NoLater(table[picked.value], table[id])
        decreases rest
      {
        var id :| id in rest;
        rest := rest - {id};
        if Eligible(table, id, now, now - staleAfter) && (picked.None? || !NoLater(table[picked.value], table[id])) {
          picked := Some(id);
        }
      }
      if picked.Some? {
        table := table[picked.value := Lock(table[picked.value], worker, now)];
      }
    }

    // The commit of a transaction: the partial unique index may reject what it wrote.
    method CommitRows(written: Table) returns (ok: bool)
      modifies this
      ensures ok == UniquePending(written) && table == if ok then written else old(table)
    {
      ok := UniquePending(written);
      if ok {
        table := written;
      }
    }

    method RenewLeases(worker: string, now: real) returns (count: nat)
      modifies this
      ensures table == Renew(old(table), worker, now)
      ensures count == |set id | id in old(table) && HeldBy(old(table)[id], worker)|
    {
      count := |set id | id in table && HeldBy(table[id], worker)|;
      table := map id | id in table :: if HeldBy(table[id], worker)
      then table[id].(lockedAt := Some(now), updatedAt := now) else table[id];
    }

    method CompleteJob(id: string, worker: string, now: real) returns (applied: bool)
      modifies this
      ensures table == Complete(old(table), id, worker, now) && applied == Fenced(old(table), id, worker)
    {
      applied := id in table && table[id].lockedBy == Some(worker);
      if applied {
        table := table[id := table[id].(status := Done, updatedAt := now)];
      }
    }

    method FailJob(id: string, worker: string, error: string, now: real) returns (r: FailOutcome)
      modifies this
      ensures id !in old(table) ==> r == NoSuchJob && table == old(table)
      ensures id in old(table) ==>
                var written := Fail(old(table), id, worker, old(table)[id], error, now);
                && table == (if UniquePending(written) then written else old(table))
                && r == (if !UniquePending(written) then IndexConflict
                         else if Fenced(old(table), id, worker) then Became(table[id].status) else Superseded)
    {
      if id !in table {
        return NoSuchJob;
      }
      var seen := table[id];
      var fenced := table[id].lockedBy == Some(worker);
      var ok := CommitRows(if fenced then table[id := Failure(table[id], seen, worker, error, now)] else table);
      r := if !ok then IndexConflict else if fenced then Became(table[id].status) else Superseded;
    }

    // The number of rows reset, or nothing if the index rejects the transaction.
    method ResetRunningToPending(worker: string, now: real) returns (count: Option<nat>)
      modifies this
      ensures var written := Reset(old(table), worker, now);
              if UniquePending(written) then table == written && count
                == Some(|set id | id in old(table) && HeldBy(old(table)[id], worker)|)
              else table == old(table) && count == None
    {
      var held := |set id | id in table && HeldBy(table[id], worker)|;
      var written := map id | id in table :: if HeldBy(table[id], worker) then Requeue(table[id], now) else table[id];
      var ok := CommitRows(written);
      count := if ok then Some(held) else None;
    }
  }
}
