/** Storing new memories (`remember` in src/qortia/remember.py), with its 24-hour de-duplication. */
module Remembering {
  import opened Wrappers
  import opened Collections
  import opened StoreModel

  const DAY: int := 86400

  /** One memory of a request; only short-term memories carry a time to live. */
  datatype Item = Item(kind: Kind, content: string, mentions: seq<Mention>, ttl: Option<int>)

  /** A request, with the ids the database would draw for its items. */
  datatype Batch = Batch(agent: AgentId, items: seq<Item>, ids: seq<Id>, now: Time)

  function ImportanceOf(kind: Kind): real {
    match kind
    case Episodic => 0.3
    case Experiential => 0.6
    case MentalModel => 0.8
    case Decision => 0.9
    case Lesson => 0.95
    case ShortTerm => 0.1
  }

  predicate Deduplicated(kind: Kind) {
    kind == Episodic || kind == Experiential
  }

  /** A row the de-duplication finds: same agent and content hash, active, and less than 24 hours old. */
  predicate IsRecentCopy(m: Memory, a: AgentId, content: string, now: Time) {
    m.agent == a && m.hash == Some(content) && m.active && m.createdAt > now - DAY
  }

  predicate HasRecentCopy(rows: Memories, a: AgentId, content: string, now: Time) {
    exists id :: id in rows && IsRecentCopy(rows[id], a, content, now)
  }

  /** An item is inserted unless its kind is de-duplicated and a recent copy exists. */
  predicate Inserts(rows: Memories, b: Batch, i: nat)
    requires i < |b.items|
  {
    !(Deduplicated(b.items[i].kind) && HasRecentCopy(rows, b.agent, b.items[i].content, b.now))
  }

  function NewMemory(b: Batch, i: nat): Memory
    requires i < |b.items|
  {
    var x := b.items[i];
    Memory(b.agent, x.kind, x.content, ImportanceOf(x.kind), false, None, true, b.now,
           if x.kind == ShortTerm && x.ttl.Some? && x.ttl.value != 0 then Some(b.now + x.ttl.value) else None,
           Some(x.content), false, x.mentions)
  }

  /** The rows after the first `n` items. */
  function Stored(rows: Memories, b: Batch, n: nat): Memories
    requires n <= |b.items| == |b.ids|
  {
    if n == 0 then rows
    else
      var before := Stored(rows, b, n - 1);
      if Inserts(before, b, n - 1) then before[b.ids[n - 1] := NewMemory(b, n - 1)] else before
  }

  /** The episodic rows among those inserted by the first `n` items. */
  function EpisodicCount(rows: Memories, b: Batch, n: nat): nat
    requires n <= |b.items| == |b.ids|
  {
    if n == 0 then 0
    else EpisodicCount(rows, b, n - 1) +
         if Inserts(Stored(rows, b, n - 1), b, n - 1) && b.items[n - 1].kind == Episodic then 1 else 0
  }

  function Trail(rows: Memories, b: Batch, n: nat): seq<HistoryEntry>
    requires n <= |b.items| == |b.ids|
  {
    if n == 0 then []
    else Trail(rows, b, n - 1) +
         if Inserts(Stored(rows, b, n - 1), b, n - 1) then [HistoryEntry(b.agent, Remembered, b.ids[n - 1], None)]
         else []
  }

  predicate IsActive(s: State, a: AgentId) {
    a in s.agents && s.agents[a].active
  }

  /** The whole transaction; an inactive agent is turned away. */
  function Remember(s: State, b: Batch): State
    requires |b.items| == |b.ids|
  {
    if !IsActive(s, b.agent) then s
    else
      var n := |b.items|;
      var agent := s.agents[b.agent];
      s.(rows := Stored(s.rows, b, n),
         agents := s.agents[b.agent := agent.(counter := agent.counter + EpisodicCount(s.rows, b, n))],
         history := s.history + Trail(s.rows, b, n),
         clock := b.now)
  }

  ghost predicate FreshIds(rows: Memories, b: Batch) {
    && |b.items| == |b.ids|
    && Distinct(b.ids)
    && forall i :: 0 <= i < |b.ids| ==> b.ids[i] !in rows
  }

  /** The ids inserted by the first `n` items. */
  function Inserted(rows: Memories, b: Batch, n: nat): set<Id>
    requires n <= |b.items| == |b.ids|
  {
    if n == 0 then {}
    else Inserted(rows, b, n - 1) + if Inserts(Stored(rows, b, n - 1), b, n - 1) then {b.ids[n - 1]} else {}
  }

  lemma {:induction false} InsertedBelow(rows: Memories, b: Batch, n: nat, id: Id)
    requires n <= |b.items| == |b.ids| && id in Inserted(rows, b, n)
    ensures exists i :: 0 <= i < n && b.ids[i] == id
  {
    if id in Inserted(rows, b, n - 1) { InsertedBelow(rows, b, n - 1, id); }
  }

  lemma {:induction false} StoredKeys(rows: Memories, b: Batch, n: nat)
    requires n <= |b.items| == |b.ids|
    ensures Stored(rows, b, n).Keys == rows.Keys + Inserted(rows, b, n)
  {
    if n == 0 {
    } else {
      StoredKeys(rows, b, n - 1);
    }
  }

  /** The id drawn for an item is in no row when the item's turn comes. */
  lemma IdIsNew(rows: Memories, b: Batch, n: nat)
    requires n < |b.items| && FreshIds(rows, b)
    ensures b.ids[n] !in Stored(rows, b, n)
  {
    StoredKeys(rows, b, n);
    if b.ids[n] in Inserted(rows, b, n) { InsertedBelow(rows, b, n, b.ids[n]); }
  }

  /** Existing rows stay as they are. */
  lemma {:induction false} OldRowsStay(rows: Memories, b: Batch, n: nat, id: Id)
    requires n <= |b.items| && FreshIds(rows, b) && id in rows
    ensures id in Stored(rows, b, n) && Stored(rows, b, n)[id] == rows[id]
  {
    if n == 0 {
    } else {
      OldRowsStay(rows, b, n - 1, id);
    }
  }

  /** Each inserted row is the item's. */
  lemma {:induction false} NewRowsAreItems(rows: Memories, b: Batch, n: nat, id: Id)
    requires n <= |b.items| && FreshIds(rows, b) && id in Stored(rows, b, n) && id !in rows
    ensures exists i :: 0 <= i < n && b.ids[i] == id && Stored(rows, b, n)[id] == NewMemory(b, i)
  {
    if n == 0 {
    } else if id in Stored(rows, b, n - 1) {
      NewRowsAreItems(rows, b, n - 1, id);
      IdIsNew(rows, b, n - 1);
    }
  }

  lemma StoredRows(rows: Memories, b: Batch, n: nat)
    requires n <= |b.items| && FreshIds(rows, b)
    ensures Stored(rows, b, n).Keys == rows.Keys + Inserted(rows, b, n)
    ensures forall id :: id in rows ==> Stored(rows, b, n)[id] == rows[id]
    ensures forall id :: id in Stored(rows, b, n) && id !in rows ==>
      exists i :: 0 <= i < n && b.ids[i] == id && Stored(rows, b, n)[id] == NewMemory(b, i)
  {
    StoredKeys(rows, b, n);
    forall id | id in rows ensures Stored(rows, b, n)[id] == rows[id] { OldRowsStay(rows, b, n, id); }
    forall id | id in Stored(rows, b, n) && id !in rows
      ensures exists i :: 0 <= i < n && b.ids[i] == id && Stored(rows, b, n)[id] == NewMemory(b, i)
    {
      NewRowsAreItems(rows, b, n, id);
    }
  }

  /** Every row inserted has its audit entry. */
  lemma {:induction false} TrailNamesRows(rows: Memories, b: Batch, n: nat)
    requires n <= |b.items| == |b.ids|
    ensures Issued(Trail(rows, b, n)) == Inserted(rows, b, n)
  {
    if n == 0 {
    } else {
      TrailNamesRows(rows, b, n - 1);
      var entry := HistoryEntry(b.agent, Remembered, b.ids[n - 1], None);
      IssuedConcat(Trail(rows, b, n - 1), [entry]);
      assert Issued([entry]) == {entry.target} by { assert entry in [entry]; }
      assert Trail(rows, b, n - 1) + [] == Trail(rows, b, n - 1);
    }
  }

  // ---- No content twice within a day ----

  /** Two rows of one agent that the de-duplication should keep apart. */
  predicate Copies(x: Memory, y: Memory) {
    && x.agent == y.agent && x.active && y.active && x.hash.Some? && x.hash == y.hash
    && x.kind in {Episodic, Experiential} && y.kind in {Episodic, Experiential}
  }

  ghost predicate NoRecentRepeat(rows: Memories) {
    forall i, j :: i in rows && j in rows && i != j && Copies(rows[i], rows[j]) ==>
      rows[i].createdAt - rows[j].createdAt >= 24 * 60 * 60 || rows[j].createdAt - rows[i].createdAt >= 24 * 60 * 60
  }

  ghost predicate CreatedBy(rows: Memories, now: Time) {
    forall id :: id in rows ==> rows[id].createdAt <= now
  }

  lemma {:induction false} StoringKeepsApart(rows: Memories, b: Batch, n: nat)
    requires n <= |b.items| && FreshIds(rows, b)
    requires NoRecentRepeat(rows) && CreatedBy(rows, b.now)
    ensures NoRecentRepeat(Stored(rows, b, n)) && CreatedBy(Stored(rows, b, n), b.now)
  {
    if n == 0 {
    } else {
      StoringKeepsApart(rows, b, n - 1);
      var before := Stored(rows, b, n - 1);
      if Inserts(before, b, n - 1) { InsertKeepsApart(before, b, n - 1); }
    }
  }

  lemma InsertKeepsApart(before: Memories, b: Batch, i: nat)
    requires i < |b.items| == |b.ids| && Inserts(before, b, i)
    requires NoRecentRepeat(before) && CreatedBy(before, b.now)
    ensures NoRecentRepeat(before[b.ids[i] := NewMemory(b, i)])
    ensures CreatedBy(before[b.ids[i] := NewMemory(b, i)], b.now)
  {
    var m := NewMemory(b, i);
    forall id | id in before && Copies(before[id], m) ensures m.createdAt - before[id].createdAt >= DAY {
      assert !IsRecentCopy(before[id], b.agent, b.items[i].content, b.now);
    }
  }

  // ---- What is stored, and what is skipped ----

  /** An item is skipped exactly when it is episodic or experiential and its content was stored in the last 24 hours. */
  lemma SkippedIff(rows: Memories, b: Batch, i: nat)
    requires i < |b.items|
    ensures !Inserts(rows, b, i) <==>
            && b.items[i].kind in {Episodic, Experiential}
            && exists id :: id in rows && rows[id].agent == b.agent && rows[id].hash == Some(b.items[i].content)
                            && rows[id].active && b.now - rows[id].createdAt < 24 * 60 * 60
  {
    if !Inserts(rows, b, i) {
      var id :| id in rows && IsRecentCopy(rows[id], b.agent, b.items[i].content, b.now);
      assert b.now - rows[id].createdAt < 24 * 60 * 60;
    }
    if id :| id in rows && rows[id].agent == b.agent && rows[id].hash == Some(b.items[i].content)
             && rows[id].active && b.now - rows[id].createdAt < 24 * 60 * 60
    {
      assert IsRecentCopy(rows[id], b.agent, b.items[i].content, b.now);
    }
  }

  /** A new row is the item's, belongs to no knowledge yet, and expires only if it is short-term with a time to live. */
  lemma NewMemoryIsItem(b: Batch, i: nat)
    requires i < |b.items|
    ensures var x, m := b.items[i], NewMemory(b, i);
      && m.agent == b.agent && m.kind == x.kind && m.content == x.content && m.hash == Some(x.content)
      && m.mentions == x.mentions && m.createdAt == b.now && m.active && !m.consolidated && !m.graphed
      && m.validUntil == None
      && (m.expiresAt.Some? <==> x.kind == ShortTerm && x.ttl.Some? && x.ttl.value != 0)
      && (m.expiresAt.Some? ==> m.expiresAt.value - m.createdAt == x.ttl.value)
  {
  }

  /** An inactive agent is turned away; a decision or a lesson of an active one is always stored. */
  lemma RemembersIff(s: State, b: Batch, i: nat)
    requires FreshIds(s.rows, b) && i < |b.items| && (b.items[i].kind == Decision || b.items[i].kind == Lesson)
    ensures b.ids[i] in Remember(s, b).rows <==> b.agent in s.agents && s.agents[b.agent].active
    ensures !(b.agent in s.agents && s.agents[b.agent].active) ==> Remember(s, b) == s
  {
    if IsActive(s, b.agent) { KeptInStore(s.rows, b, i, |b.items|); }
  }

  lemma {:induction false} KeptInStore(rows: Memories, b: Batch, i: nat, n: nat)
    requires |b.items| == |b.ids| && i < n <= |b.items| && !Deduplicated(b.items[i].kind)
    ensures b.ids[i] in Stored(rows, b, n)
  {
    if i == n - 1 {
    } else {
      KeptInStore(rows, b, i, n - 1);
    }
  }

  /** How much the kinds count: a lesson most, then decisions, mental models, experience, episodes and scratch notes. */
  lemma ImportanceRanks()
    ensures 1.0 > ImportanceOf(Lesson) > ImportanceOf(Decision) > ImportanceOf(MentalModel)
    ensures ImportanceOf(MentalModel) > ImportanceOf(Experiential) > ImportanceOf(Episodic)
    ensures ImportanceOf(Episodic) > ImportanceOf(ShortTerm) > 0.0
    ensures ImportanceOf(Lesson) + ImportanceOf(ShortTerm) == 1.05
    ensures ImportanceOf(Decision) == 3.0 * ImportanceOf(Episodic) == 9.0 * ImportanceOf(ShortTerm)
    ensures ImportanceOf(Experiential) == 2.0 * ImportanceOf(Episodic)
    ensures ImportanceOf(MentalModel) == 8.0 * ImportanceOf(ShortTerm)
  {
  }

  /** The audit trail: one entry for each inserted row, by the agent, in the order of the items. */
  lemma {:induction false} TrailInOrder(rows: Memories, b: Batch, n: nat) returns (at: seq<nat>)
    requires n <= |b.items| == |b.ids|
    ensures Increasing(at) && |at| == |Trail(rows, b, n)|
    ensures forall k :: 0 <= k < |at| ==>
              at[k] < n && Trail(rows, b, n)[k] == HistoryEntry(b.agent, Remembered, b.ids[at[k]], None)
  {
    if n == 0 {
      at := [];
    } else {
      at := TrailInOrder(rows, b, n - 1);
      if Inserts(Stored(rows, b, n - 1), b, n - 1) { at := at + [n - 1]; }
    }
  }

  // ---- The episodes counted ----

  /** The new rows of the first `n` items that are episodic. */
  function NewEpisodics(rows: Memories, b: Batch, n: nat): set<Id>
    requires n <= |b.items| == |b.ids|
  {
    set id | id in Stored(rows, b, n) && id !in rows && Stored(rows, b, n)[id].kind == Episodic
  }

  /** Item `n` is inserted, and episodic. */
  predicate AddsEpisodic(rows: Memories, b: Batch, n: nat)
    requires n < |b.items| == |b.ids|
  {
    Inserts(Stored(rows, b, n), b, n) && b.items[n].kind == Episodic
  }

  lemma NewEpisodicsStep(rows: Memories, b: Batch, n: nat)
    requires n < |b.items| && FreshIds(rows, b)
    ensures b.ids[n] !in NewEpisodics(rows, b, n)
    ensures AddsEpisodic(rows, b, n) ==> NewEpisodics(rows, b, n + 1) == NewEpisodics(rows, b, n) + {b.ids[n]}
    ensures !AddsEpisodic(rows, b, n) ==> NewEpisodics(rows, b, n + 1) == NewEpisodics(rows, b, n)
  {
    IdIsNew(rows, b, n);
  }

  lemma NewEpisodicsGrow(rows: Memories, b: Batch, n: nat)
    requires n < |b.items| && FreshIds(rows, b)
    ensures |NewEpisodics(rows, b, n + 1)| == |NewEpisodics(rows, b, n)| + if AddsEpisodic(rows, b, n) then 1 else 0
  {
    NewEpisodicsStep(rows, b, n);
    AddingCounts(NewEpisodics(rows, b, n), b.ids[n]);
  }

  /** The count is that of the episodic rows really inserted. */
  lemma {:induction false} EpisodicsAreCounted(rows: Memories, b: Batch, n: nat)
    requires n <= |b.items| && FreshIds(rows, b)
    ensures EpisodicCount(rows, b, n) == |NewEpisodics(rows, b, n)|
  {
    if n == 0 {
      assert NewEpisodics(rows, b, 0) == {};
    } else {
      EpisodicsAreCounted(rows, b, n - 1);
      NewEpisodicsGrow(rows, b, n - 1);
    }
  }
}
