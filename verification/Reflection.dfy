/**
 * What one reflection write does to the memories (`_write_reflections` in src/qortia/reflect.py):
 * the prune guard, supersession, de-duplication within the reply, and how much consolidated
 * knowledge is left, for arbitrary replies and for replies whose ids are in order.
 */
module Reflection {
  import opened Wrappers
  import opened Collections
  import opened StoreModel

  /** An id in the reply: text that may or may not be a UUID. */
  datatype RawId = Uuid(id: Id) | Malformed(text: string)

  /** One validated entry of the reply. */
  datatype Action =
    | Create(kind: Kind, content: string, importance: real, parent: Option<string>)
    | Update(target: RawId, kind: Kind, content: string, importance: real, text: string)
    | Retain(target: RawId)

  /**
   * What a write brings along for each entry: the id the database would draw, the extracted
   * entities, and the stability of an update (None without embeddings).
   */
  datatype Draft = Draft(id: Id, mentions: seq<Mention>, stability: Option<real>)

  /** lower().strip() of the content; its hash stands for itself. */
  type Normal = string -> string

  datatype Write = Write(
    agent: AgentId,
    existingSeen: bool,
    reply: seq<Action>,
    drafts: seq<Draft>,
    normal: Normal,
    threshold: int,
    now: Time)

  /** The validated replies: only knowledge types are written. */
  predicate WellFormed(w: Write) {
    && |w.drafts| == |w.reply|
    && forall i :: 0 <= i < |w.reply| && !w.reply[i].Retain? ==> IsKnowledge(w.reply[i].kind)
  }

  // ---- The reply ----

  predicate NamesRow(x: Action) {
    x.Update? || x.Retain?
  }

  predicate Names(x: Action, id: Id) {
    NamesRow(x) && x.target == Uuid(id)
  }

  /** The ids named by UPDATE and RETAIN entries, in order and with repetitions; malformed ones have no place here. */
  function ActiveIds(reply: seq<Action>): seq<Id> {
    if reply == [] then []
    else
      var n := |reply| - 1;
      ActiveIds(reply[..n]) + if NamesRow(reply[n]) && reply[n].target.Uuid? then [reply[n].target.id] else []
  }

  /** An entry is written unless it is a RETAIN or repeats the content of an earlier written one. */
  predicate Written(w: Write, i: nat)
    requires i < |w.reply|
  {
    && !w.reply[i].Retain?
    && forall j :: 0 <= j < i && !w.reply[j].Retain? ==> w.normal(w.reply[j].content) != w.normal(w.reply[i].content)
  }

  predicate InUnit(x: real) {
    0.0 <= x <= 1.0
  }

  /** The column checks an inserted row must pass. */
  predicate Storable(w: Write, i: nat)
    requires i < |w.reply| && |w.drafts| == |w.reply| && !w.reply[i].Retain?
  {
    && InUnit(w.reply[i].importance)
    && (w.reply[i].Update? && w.drafts[i].stability.Some? ==> InUnit(w.drafts[i].stability.value))
  }

  /** The transaction commits: every named id is a UUID and every inserted row passes the checks. */
  predicate Commits(w: Write)
    requires |w.drafts| == |w.reply|
  {
    && (forall i :: 0 <= i < |w.reply| && NamesRow(w.reply[i]) ==> w.reply[i].target.Uuid?)
    && (forall i :: 0 <= i < |w.reply| && Written(w, i) ==> Storable(w, i))
  }

  // ---- The prune ----

  /** The rows the guard counts. */
  function Counted(rows: Memories, a: AgentId): set<Id> {
    set id | id in rows && rows[id].agent == a && IsKnowledge(rows[id].kind) && rows[id].consolidated
             && rows[id].validUntil == None
  }

  /** The guard: a reply that names fewer than half of the counted rows prunes nothing. */
  predicate Prunes(rows: Memories, w: Write) {
    var count, named := |Counted(rows, w.agent)|, |ActiveIds(w.reply)|;
    w.existingSeen && !(count > 0 && (named == 0 || 2 * named < count))
  }

  /** Pruning ends every consolidated row of the agent that the reply does not name. */
  function PruneRow(id: Id, m: Memory, w: Write): Memory {
    if m.agent == w.agent && IsKnowledge(m.kind) && m.consolidated && id !in ActiveIds(w.reply)
    then m.(consolidated := false, validUntil := Some(w.now))
    else m
  }

  function Pruned(rows: Memories, w: Write): Memories {
    if Prunes(rows, w) then map id | id in rows :: PruneRow(id, rows[id], w) else rows
  }

  // ---- The writes ----

  /** UPDATE ends the consolidation of the row it names, if that is one of the agent's. */
  function Superseded(rows: Memories, a: AgentId, target: RawId): Memories {
    if target.Uuid? && target.id in rows && rows[target.id].agent == a
    then rows[target.id := rows[target.id].(consolidated := false)]
    else rows
  }

  function NewRow(w: Write, i: nat): Memory
    requires i < |w.reply| && |w.drafts| == |w.reply| && !w.reply[i].Retain?
  {
    Memory(w.agent, w.reply[i].kind, w.reply[i].content, w.reply[i].importance, true, None, true, w.now, None, None,
           false, w.drafts[i].mentions)
  }

  /** The rows after the first `n` entries. */
  function Applied(rows: Memories, w: Write, n: nat): Memories
    requires n <= |w.reply| && |w.drafts| == |w.reply|
  {
    if n == 0 then Pruned(rows, w)
    else
      var before := Applied(rows, w, n - 1);
      if !Written(w, n - 1) then before
      else
        var x := w.reply[n - 1];
        (if x.Update? then Superseded(before, w.agent, x.target) else before)[w.drafts[n - 1].id := NewRow(w, n - 1)]
  }

  /** The ids inserted by the first `n` entries. */
  function Inserted(w: Write, n: nat): set<Id>
    requires n <= |w.reply| && |w.drafts| == |w.reply|
  {
    if n == 0 then {} else Inserted(w, n - 1) + if Written(w, n - 1) then {w.drafts[n - 1].id} else {}
  }

  /** The ids superseded by the first `n` entries. */
  function SupersededIds(w: Write, n: nat): set<Id>
    requires n <= |w.reply|
  {
    if n == 0 then {}
    else SupersededIds(w, n - 1) +
         if Written(w, n - 1) && w.reply[n - 1].Update? && w.reply[n - 1].target.Uuid? then {w.reply[n - 1].target.id}
         else {}
  }

  /** How many rows the first `n` entries insert, and how many of them are creations. */
  function WrittenCount(w: Write, n: nat): nat
    requires n <= |w.reply|
  {
    if n == 0 then 0 else WrittenCount(w, n - 1) + if Written(w, n - 1) then 1 else 0
  }

  function CreatedCount(w: Write, n: nat): nat
    requires n <= |w.reply|
  {
    if n == 0 then 0 else CreatedCount(w, n - 1) + if Written(w, n - 1) && w.reply[n - 1].Create? then 1 else 0
  }

  /** The audit entries of the first `n` entries. */
  function Trail(w: Write, n: nat): seq<HistoryEntry>
    requires n <= |w.reply| && |w.drafts| == |w.reply|
  {
    if n == 0 then []
    else
      Trail(w, n - 1) +
      if !Written(w, n - 1) then []
      else [HistoryEntry(w.agent, Reflected, w.drafts[n - 1].id, ParentOf(w.reply[n - 1]))]
  }

  function ParentOf(x: Action): Option<string>
    requires !x.Retain?
  {
    if x.Create? then x.parent else Some(x.text)
  }

  function Clamp(x: int): int {
    if x > 0 then x else 0
  }

  /** The whole transaction. */
  function WriteReflections(s: State, w: Write): State
    requires |w.drafts| == |w.reply| && w.agent in s.agents
  {
    if !Commits(w) then s
    else
      var agent := s.agents[w.agent];
      s.(rows := Applied(s.rows, w, |w.reply|),
         agents := s.agents[w.agent := agent.(counter := Clamp(agent.counter - w.threshold))],
         history := s.history + Trail(w, |w.reply|),
         clock := w.now)
  }

  ghost predicate DistinctDrafts(w: Write) {
    forall i, j :: 0 <= i < j < |w.drafts| ==> w.drafts[i].id != w.drafts[j].id
  }

  /** The drawn ids are new: no row or audit entry has them, no two entries share one, and no entry names one. */
  ghost predicate FreshDrafts(rows: Memories, w: Write) {
    && |w.drafts| == |w.reply|
    && DistinctDrafts(w)
    && (forall i :: 0 <= i < |w.drafts| ==> w.drafts[i].id !in rows)
    && (forall i, j :: 0 <= i < |w.drafts| && 0 <= j < |w.reply| && NamesRow(w.reply[j]) && w.reply[j].target.Uuid? ==>
          w.drafts[i].id != w.reply[j].target.id)
  }

  // ---- The consolidated rows after a write, for any reply ----

  lemma {:induction false} InsertedBelow(w: Write, n: nat, id: Id)
    requires n <= |w.reply| && |w.drafts| == |w.reply|
    ensures id in Inserted(w, n) <==> exists i :: 0 <= i < n && Written(w, i) && w.drafts[i].id == id
  {
    if n == 0 {
    } else {
      InsertedBelow(w, n - 1, id);
    }
  }

  lemma {:induction false} AppliedKeys(rows: Memories, w: Write, n: nat)
    requires n <= |w.reply| && |w.drafts| == |w.reply|
    ensures Applied(rows, w, n).Keys == rows.Keys + Inserted(w, n)
  {
    if n == 0 {
    } else {
      AppliedKeys(rows, w, n - 1);
    }
  }

  /** One written entry: the row it supersedes leaves, the row it inserts joins. */
  lemma ConsolidatedStep(before: Memories, w: Write, i: nat)
    requires i < |w.reply| && |w.drafts| == |w.reply| && !w.reply[i].Retain? && w.drafts[i].id !in before
    ensures var x := w.reply[i];
            var kept := if x.Update? then Superseded(before, w.agent, x.target) else before;
            var after := kept[w.drafts[i].id := NewRow(w, i)];
            Consolidated(after, w.agent) ==
            (Consolidated(before, w.agent) - if x.Update? && x.target.Uuid? then {x.target.id} else {})
            + {w.drafts[i].id}
  {
  }

  /** The same on top of what earlier entries did. */
  lemma ConsolidatedMoves(before: Memories, w: Write, i: nat, kept: set<Id>, gone: set<Id>, added: set<Id>)
    requires i < |w.reply| && |w.drafts| == |w.reply| && !w.reply[i].Retain? && w.drafts[i].id !in before
    requires Consolidated(before, w.agent) == (kept - gone) + added
    requires w.reply[i].Update? && w.reply[i].target.Uuid? ==> w.reply[i].target.id !in added
    ensures var x := w.reply[i];
            var rest := if x.Update? then Superseded(before, w.agent, x.target) else before;
            var after := rest[w.drafts[i].id := NewRow(w, i)];
            Consolidated(after, w.agent) ==
            (kept - (gone + if x.Update? && x.target.Uuid? then {x.target.id} else {})) + (added + {w.drafts[i].id})
  {
    ConsolidatedStep(before, w, i);
    var x := w.reply[i];
    MoveOne(kept, gone, added, if x.Update? && x.target.Uuid? then {x.target.id} else {}, {w.drafts[i].id});
  }

  /** Whatever the reply: what survived the prune, less what was superseded, plus what was inserted. */
  lemma {:induction false} ConsolidatedAfter(rows: Memories, w: Write, n: nat)
    requires n <= |w.reply| && FreshDrafts(rows, w)
    ensures Consolidated(Applied(rows, w, n), w.agent) ==
            (Consolidated(Pruned(rows, w), w.agent) - SupersededIds(w, n)) + Inserted(w, n)
  {
    if n == 0 {
    } else {
      ConsolidatedAfter(rows, w, n - 1);
      if Written(w, n - 1) {
        DraftIsNew(rows, w, n - 1);
        if w.reply[n - 1].Update? && w.reply[n - 1].target.Uuid? {
          InsertedBelow(w, n - 1, w.reply[n - 1].target.id);
        }
        ConsolidatedMoves(Applied(rows, w, n - 1), w, n - 1, Consolidated(Pruned(rows, w), w.agent),
                          SupersededIds(w, n - 1), Inserted(w, n - 1));
      }
    }
  }

  lemma MoveOne(kept: set<Id>, gone: set<Id>, added: set<Id>, nowGone: set<Id>, nowAdded: set<Id>)
    requires nowGone !! added
    ensures ((kept - gone) + added - nowGone) + nowAdded == (kept - (gone + nowGone)) + (added + nowAdded)
  {
  }

  /** The id drawn for an entry is in no row when the entry's turn comes. */
  lemma DraftIsNew(rows: Memories, w: Write, i: nat)
    requires i < |w.reply| && FreshDrafts(rows, w)
    ensures w.drafts[i].id !in Applied(rows, w, i)
  {
    AppliedKeys(rows, w, i);
    InsertedBelow(w, i, w.drafts[i].id);
  }

  /** The first entry that is no RETAIN is written, so a reply that asks for any write writes something. */
  lemma {:induction false} SomethingWritten(w: Write, n: nat)
    requires n <= |w.reply| && |w.drafts| == |w.reply|
    ensures Inserted(w, n) == {} <==> forall i :: 0 <= i < n ==> w.reply[i].Retain?
    ensures Inserted(w, n) == {} ==> SupersededIds(w, n) == {}
  {
    if n == 0 {
    } else {
      SomethingWritten(w, n - 1);
      if forall i :: 0 <= i < n - 1 ==> w.reply[i].Retain? {
        assert Written(w, n - 1) <==> !w.reply[n - 1].Retain?;
      }
    }
  }

  // ---- The invariant behind the guard ----

  /** A consolidated row is knowledge and has not been ended. */
  ghost predicate Sound(rows: Memories) {
    forall id :: id in rows && rows[id].consolidated ==> IsKnowledge(rows[id].kind) && rows[id].validUntil == None
  }

  /** The guard counts precisely the rows the prune may end. */
  lemma GuardCountsWhatPruneTouches(rows: Memories, a: AgentId)
    requires Sound(rows)
    ensures Counted(rows, a) == Consolidated(rows, a)
  {
  }

  lemma SurvivorsAreNamed(rows: Memories, w: Write)
    requires Sound(rows)
    ensures Consolidated(Pruned(rows, w), w.agent) ==
            if Prunes(rows, w) then (set id | id in Consolidated(rows, w.agent) && id in ActiveIds(w.reply))
            else Consolidated(rows, w.agent)
  {
  }

  lemma {:induction false} AppliedIsSound(rows: Memories, w: Write, n: nat)
    requires Sound(rows) && WellFormed(w) && n <= |w.reply|
    ensures Sound(Applied(rows, w, n))
  {
    if n == 0 {
    } else {
      AppliedIsSound(rows, w, n - 1);
    }
  }

  /** The reply writes nothing and names no consolidated row, and the guard lets it through. */
  predicate Wipes(rows: Memories, w: Write) {
    && Prunes(rows, w)
    && (forall i :: 0 <= i < |w.reply| ==> w.reply[i].Retain?)
    && (forall id :: id in Consolidated(rows, w.agent) ==> id !in ActiveIds(w.reply))
  }

  lemma LoopEmptiesIff(rows: Memories, w: Write)
    requires Sound(rows) && FreshDrafts(rows, w) && Consolidated(rows, w.agent) != {}
    ensures Consolidated(Applied(rows, w, |w.reply|), w.agent) == {} <==> Wipes(rows, w)
  {
    ConsolidatedAfter(rows, w, |w.reply|);
    SomethingWritten(w, |w.reply|);
    SurvivorsAreNamed(rows, w);
    var survivors := Consolidated(Pruned(rows, w), w.agent);
    assert forall id :: id in survivors <==>
      id in Consolidated(rows, w.agent) && (Prunes(rows, w) ==> id in ActiveIds(w.reply));
    if Inserted(w, |w.reply|) == {} {
      assert survivors - {} + {} == survivors;
    }
  }

  /**
   * When a transaction empties a non-empty set of consolidated rows: exactly when it commits and the
   * guard lets a reply through that has RETAIN entries only and names none of them.
   */
  lemma EmptiesIff(s: State, w: Write)
    requires w.agent in s.agents && Sound(s.rows) && FreshDrafts(s.rows, w) && Consolidated(s.rows, w.agent) != {}
    ensures Consolidated(WriteReflections(s, w).rows, w.agent) == {} <==> Commits(w) && Wipes(s.rows, w)
  {
    LoopEmptiesIff(s.rows, w);
  }

  /** The guard alone does not prevent it: it counts ids, known or not. Here one unknown id ends the only row. */
  lemma UnknownIdWipes(s: State, normal: Normal, m: Memory, now: Time)
    requires m.agent == 1 && m.consolidated && IsKnowledge(m.kind) && m.validUntil == None
    requires s.rows == map[10 := m] && 1 in s.agents
    ensures var w := Write(1, true, [Retain(Uuid(99))], [Draft(20, [], None)], normal, 10, now);
            && Sound(s.rows) && FreshDrafts(s.rows, w) && Consolidated(s.rows, 1) == {10}
            && Consolidated(WriteReflections(s, w).rows, 1) == {}
  {
    var w := Write(1, true, [Retain(Uuid(99))], [Draft(20, [], None)], normal, 10, now);
    assert ActiveIds(w.reply) == [99] by { assert w.reply[..0] == []; }
    assert Counted(s.rows, 1) == {10};
    assert Consolidated(s.rows, 1) == {10};
    EmptiesIff(s, w);
  }

  // ---- What a write ends ----

  /** Once a row is no longer consolidated, nothing in the write touches it. */
  lemma {:induction false} EndedStays(rows: Memories, w: Write, n: nat, id: Id)
    requires n <= |w.reply| && FreshDrafts(rows, w) && id in rows
    ensures id in Applied(rows, w, n)
    ensures Applied(rows, w, n)[id] == Pruned(rows, w)[id]
         || Applied(rows, w, n)[id] == Pruned(rows, w)[id].(consolidated := false)
  {
    if n == 0 {
    } else {
      EndedStays(rows, w, n - 1, id);
    }
  }

  /**
   * A row that leaves the consolidated rows gets an end of validity exactly when it was pruned; one
   * that was updated instead stays valid.
   */
  lemma EndsValidityIff(s: State, w: Write, id: Id)
    requires w.agent in s.agents && Sound(s.rows) && FreshDrafts(s.rows, w)
    requires id in Consolidated(s.rows, w.agent) && id !in Consolidated(WriteReflections(s, w).rows, w.agent)
    ensures var after := WriteReflections(s, w).rows;
            && id in after
            && after[id].validUntil ==
               if Prunes(s.rows, w) && id !in ActiveIds(w.reply) then Some(w.now) else None
  {
    EndedStays(s.rows, w, |w.reply|, id);
  }

  // ---- Replies whose ids are in order ----

  /** The ids of the reply are UUIDs, distinct, and name consolidated rows of the agent. */
  ghost predicate GoodIds(rows: Memories, w: Write) {
    && (forall i :: 0 <= i < |w.reply| && NamesRow(w.reply[i]) ==>
          w.reply[i].target.Uuid? && w.reply[i].target.id in Consolidated(rows, w.agent))
    && (forall i, j :: 0 <= i < j < |w.reply| && NamesRow(w.reply[i]) && NamesRow(w.reply[j]) ==>
          w.reply[i].target != w.reply[j].target)
  }

  lemma {:induction false} ActiveIdsMembers(reply: seq<Action>, id: Id)
    ensures id in ActiveIds(reply) <==> exists i :: 0 <= i < |reply| && Names(reply[i], id)
  {
    if reply == [] {
    } else {
      ActiveIdsMembers(reply[..|reply| - 1], id);
      NamedByLast(reply, id);
    }
  }

  lemma NamedByLast(reply: seq<Action>, id: Id)
    requires reply != []
    ensures var n := |reply| - 1;
            (exists i :: 0 <= i < |reply| && Names(reply[i], id)) <==>
            (exists i :: 0 <= i < n && Names(reply[..n][i], id)) || Names(reply[n], id)
  {
    var n := |reply| - 1;
    if i :| 0 <= i < |reply| && Names(reply[i], id) {
      if i < n { assert Names(reply[..n][i], id); }
    }
    if i :| 0 <= i < n && Names(reply[..n][i], id) { assert Names(reply[i], id); }
  }

  lemma {:induction false} ActiveIdsDistinct(reply: seq<Action>)
    requires forall i, j :: 0 <= i < j < |reply| && NamesRow(reply[i]) && NamesRow(reply[j]) ==>
      reply[i].target != reply[j].target
    ensures Distinct(ActiveIds(reply))
  {
    if reply == [] {
    } else {
      var n := |reply| - 1;
      ActiveIdsDistinct(reply[..n]);
      if NamesRow(reply[n]) && reply[n].target.Uuid? { ActiveIdsMembers(reply[..n], reply[n].target.id); }
    }
  }

  /** With ids in order, at least half of the consolidated rows survive the prune. */
  lemma HalfSurvivesPrune(rows: Memories, w: Write)
    requires Sound(rows) && GoodIds(rows, w)
    ensures 2 * |Consolidated(Pruned(rows, w), w.agent)| >= |Consolidated(rows, w.agent)|
  {
    SurvivorsAreNamed(rows, w);
    GuardCountsWhatPruneTouches(rows, w.agent);
    if Prunes(rows, w) {
      var named := ActiveIds(w.reply);
      ActiveIdsDistinct(w.reply);
      ToSetCount(named);
      forall id | id in named ensures id in Consolidated(rows, w.agent) { ActiveIdsMembers(w.reply, id); }
      assert Consolidated(Pruned(rows, w), w.agent) == ToSet(named);
    }
  }

  /** With ids in order, an update replaces a row that is still consolidated. */
  lemma UpdateTargetIsLeft(rows: Memories, w: Write, i: nat, n: nat)
    requires Sound(rows) && FreshDrafts(rows, w) && GoodIds(rows, w) && n <= i < |w.reply|
    requires w.reply[i].Update?
    ensures w.reply[i].target.id in Consolidated(Applied(rows, w, n), w.agent)
  {
    ConsolidatedAfter(rows, w, n);
    SurvivorsAreNamed(rows, w);
    ActiveIdsMembers(w.reply, w.reply[i].target.id);
    SupersededBelow(w, n, w.reply[i].target.id);
  }

  lemma {:induction false} SupersededBelow(w: Write, n: nat, id: Id)
    requires n <= |w.reply|
    ensures id in SupersededIds(w, n) ==>
            exists i :: 0 <= i < n && w.reply[i].Update? && w.reply[i].target == Uuid(id)
  {
    if n == 0 {
    } else {
      SupersededBelow(w, n - 1, id);
    }
  }

  /** The number of consolidated rows after one entry, when an update replaces a consolidated row. */
  lemma ConsolidatedCountStep(before: Memories, w: Write, i: nat)
    requires i < |w.reply| && |w.drafts| == |w.reply| && !w.reply[i].Retain? && w.drafts[i].id !in before
    requires w.reply[i].Update? ==> w.reply[i].target.Uuid? && w.reply[i].target.id in Consolidated(before, w.agent)
    ensures var x := w.reply[i];
            var kept := if x.Update? then Superseded(before, w.agent, x.target) else before;
            var after := kept[w.drafts[i].id := NewRow(w, i)];
            |Consolidated(after, w.agent)| == |Consolidated(before, w.agent)| + if x.Create? then 1 else 0
  {
    ConsolidatedStep(before, w, i);
  }

  lemma {:induction false} LoopConserves(rows: Memories, w: Write, n: nat)
    requires Sound(rows) && FreshDrafts(rows, w) && GoodIds(rows, w) && n <= |w.reply|
    ensures |Consolidated(Applied(rows, w, n), w.agent)| ==
            |Consolidated(Pruned(rows, w), w.agent)| + CreatedCount(w, n)
  {
    if n == 0 {
    } else {
      LoopConserves(rows, w, n - 1);
      if Written(w, n - 1) {
        DraftIsNew(rows, w, n - 1);
        if w.reply[n - 1].Update? { UpdateTargetIsLeft(rows, w, n - 1, n - 1); }
        ConsolidatedCountStep(Applied(rows, w, n - 1), w, n - 1);
      }
    }
  }

  /**
   * Conservation: after a transaction that commits, the consolidated rows are the survivors of the
   * prune plus the creations not skipped; after one that aborts, as many as before.
   */
  lemma Conservation(s: State, w: Write)
    requires w.agent in s.agents && Sound(s.rows) && FreshDrafts(s.rows, w)
    requires Commits(w) ==> GoodIds(s.rows, w)
    ensures |Consolidated(WriteReflections(s, w).rows, w.agent)| ==
            if Commits(w) then |Consolidated(Pruned(s.rows, w), w.agent)| + CreatedCount(w, |w.reply|)
            else |Consolidated(s.rows, w.agent)|
  {
    if Commits(w) { LoopConserves(s.rows, w, |w.reply|); }
  }

  /** With ids in order, a transaction leaves at least half of the consolidated rows. */
  lemma HalfSurvivesWrite(s: State, w: Write)
    requires w.agent in s.agents && Sound(s.rows) && FreshDrafts(s.rows, w)
    requires Commits(w) ==> GoodIds(s.rows, w)
    ensures 2 * |Consolidated(WriteReflections(s, w).rows, w.agent)| >= |Consolidated(s.rows, w.agent)|
  {
    Conservation(s, w);
    if Commits(w) { HalfSurvivesPrune(s.rows, w); }
  }

  // ---- What is written ----

  lemma InsertedIsNew(w: Write, n: nat)
    requires n < |w.reply| && |w.drafts| == |w.reply| && DistinctDrafts(w)
    ensures w.drafts[n].id !in Inserted(w, n)
  {
    InsertedBelow(w, n, w.drafts[n].id);
  }

  lemma {:induction false} RowsAreCounted(w: Write, n: nat)
    requires n <= |w.reply| && |w.drafts| == |w.reply| && DistinctDrafts(w)
    ensures |Inserted(w, n)| == WrittenCount(w, n)
  {
    if n == 0 {
    } else {
      RowsAreCounted(w, n - 1);
      InsertedGrows(w, n - 1);
    }
  }

  lemma InsertedGrows(w: Write, n: nat)
    requires n < |w.reply| && |w.drafts| == |w.reply| && DistinctDrafts(w)
    ensures |Inserted(w, n + 1)| == |Inserted(w, n)| + if Written(w, n) then 1 else 0
  {
    var before, after := Inserted(w, n), Inserted(w, n + 1);
    InsertedIsNew(w, n);
    AddingCounts(before, w.drafts[n].id);
    if Written(w, n) {
      assert after == before + {w.drafts[n].id};
    } else {
      assert after == before + {} == before;
    }
  }

  lemma {:induction false} TrailNamesRows(w: Write, n: nat)
    requires n <= |w.reply| && |w.drafts| == |w.reply|
    ensures |Trail(w, n)| == WrittenCount(w, n)
    ensures Issued(Trail(w, n)) == Inserted(w, n)
  {
    if n == 0 {
    } else {
      TrailNamesRows(w, n - 1);
      if Written(w, n - 1) {
        var entry := HistoryEntry(w.agent, Reflected, w.drafts[n - 1].id, ParentOf(w.reply[n - 1]));
        IssuedConcat(Trail(w, n - 1), [entry]);
        assert Issued([entry]) == {entry.target} by { assert entry in [entry]; }
      }
    }
  }

  /** As many rows as audit entries, and as many as the count reported; the entries name the rows. */
  lemma RowsAndTrailAgree(w: Write)
    requires |w.drafts| == |w.reply| && DistinctDrafts(w)
    ensures var n := |w.reply|;
      && |Inserted(w, n)| == |Trail(w, n)| == WrittenCount(w, n)
      && Issued(Trail(w, n)) == Inserted(w, n)
  {
    RowsAreCounted(w, |w.reply|);
    TrailNamesRows(w, |w.reply|);
  }

  /** An inserted row stays as it was inserted until the end of the write. */
  lemma {:induction false} InsertedRow(rows: Memories, w: Write, i: nat, n: nat)
    requires FreshDrafts(rows, w) && i < n <= |w.reply| && Written(w, i)
    ensures w.drafts[i].id in Applied(rows, w, n) && Applied(rows, w, n)[w.drafts[i].id] == NewRow(w, i)
  {
    if i == n - 1 {
    } else {
      InsertedRow(rows, w, i, n - 1);
    }
  }

  /** Inserted contents are pairwise different after normalisation. */
  lemma InsertedContentsDiffer(rows: Memories, w: Write, x: Id, y: Id)
    requires FreshDrafts(rows, w) && x != y
    requires x in Inserted(w, |w.reply|) && y in Inserted(w, |w.reply|)
    ensures var after := Applied(rows, w, |w.reply|);
            x in after && y in after && w.normal(after[x].content) != w.normal(after[y].content)
  {
    InsertedBelow(w, |w.reply|, x);
    InsertedBelow(w, |w.reply|, y);
    var i :| 0 <= i < |w.reply| && Written(w, i) && w.drafts[i].id == x;
    var j :| 0 <= j < |w.reply| && Written(w, j) && w.drafts[j].id == y;
    InsertedRow(rows, w, i, |w.reply|);
    InsertedRow(rows, w, j, |w.reply|);
  }

  /** Every content the reply asks to write is there afterwards, normalised, under some inserted id. */
  lemma {:induction false} ContentIsWritten(w: Write, i: nat)
    requires i < |w.reply| && |w.drafts| == |w.reply| && !w.reply[i].Retain?
    ensures exists j :: 0 <= j <= i && Written(w, j) && w.normal(w.reply[j].content) == w.normal(w.reply[i].content)
  {
    if Written(w, i) {
    } else {
      var j :| 0 <= j < i && !w.reply[j].Retain? && w.normal(w.reply[j].content) == w.normal(w.reply[i].content);
      ContentIsWritten(w, j);
    }
  }

  /** Rows of other agents, whatever ids the reply names, stay as they were. */
  lemma {:induction false} OthersUntouched(rows: Memories, w: Write, n: nat, id: Id)
    requires FreshDrafts(rows, w) && n <= |w.reply| && id in rows && rows[id].agent != w.agent
    ensures id in Applied(rows, w, n) && Applied(rows, w, n)[id] == rows[id]
  {
    if n == 0 {
    } else {
      OthersUntouched(rows, w, n - 1, id);
    }
  }

  // ---- The guard, in numbers ----

  /** The places of the reply that name a row. */
  function NamingPlaces(reply: seq<Action>): set<nat> {
    set i | 0 <= i < |reply| && NamesRow(reply[i]) && reply[i].target.Uuid?
  }

  /** Every such entry counts, known or unknown, repeated or not. */
  lemma {:induction false} ActiveIdsCount(reply: seq<Action>)
    ensures |ActiveIds(reply)| == |NamingPlaces(reply)|
  {
    if reply == [] {
      assert NamingPlaces(reply) == {};
    } else {
      var n := |reply| - 1;
      ActiveIdsCount(reply[..n]);
      NamingPlacesStep(reply);
      AddingCounts(NamingPlaces(reply[..n]), n);
    }
  }

  lemma NamingPlacesStep(reply: seq<Action>)
    requires reply != []
    ensures var n, before := |reply| - 1, NamingPlaces(reply[..|reply| - 1]);
            && n !in before
            && NamingPlaces(reply) == if NamesRow(reply[n]) && reply[n].target.Uuid? then before + {n} else before
  {
  }

  /**
   * A consolidated row that the reply does not name is ended exactly when reflection saw existing rows
   * and the reply names at least one row and no fewer than half as many as are consolidated.
   */
  lemma EndedIffEnoughNamed(s: State, w: Write, id: Id)
    requires w.agent in s.agents && Sound(s.rows) && FreshDrafts(s.rows, w) && Commits(w)
    requires id in Consolidated(s.rows, w.agent) && id !in ActiveIds(w.reply)
    ensures var after, named := WriteReflections(s, w).rows, |NamingPlaces(w.reply)|;
            && id in after
            && (after[id].validUntil == Some(w.now) <==>
                w.existingSeen && named > 0 && 2 * named >= |Consolidated(s.rows, w.agent)|)
            && (after[id].validUntil != Some(w.now) ==> after[id].validUntil == None)
  {
    GuardCountsWhatPruneTouches(s.rows, w.agent);
    ActiveIdsCount(w.reply);
    EndedStays(s.rows, w, |w.reply|, id);
    assert Consolidated(s.rows, w.agent) != {};
  }

  // ---- What a row and its audit entry say ----

  /** An inserted row is the entry's: consolidated, valid, and without an end. */
  lemma InsertedRowIsEntry(rows: Memories, w: Write, i: nat)
    requires FreshDrafts(rows, w) && i < |w.reply| && Written(w, i)
    ensures var x, after := w.reply[i], Applied(rows, w, |w.reply|);
            && w.drafts[i].id in after
            && var m := after[w.drafts[i].id];
               && m.agent == w.agent && m.kind == x.kind && m.content == x.content && m.importance == x.importance
               && m.mentions == w.drafts[i].mentions && m.consolidated && m.active && !m.graphed
               && m.createdAt == w.now && m.validUntil == None && m.expiresAt == None && m.hash == None
  {
    InsertedRow(rows, w, i, |w.reply|);
  }

  /** A transaction that commits inserts importances between zero and one only. */
  lemma InsertedInUnit(rows: Memories, w: Write, i: nat)
    requires FreshDrafts(rows, w) && Commits(w) && i < |w.reply| && Written(w, i)
    ensures var after := Applied(rows, w, |w.reply|);
            w.drafts[i].id in after && 0.0 <= after[w.drafts[i].id].importance <= 1.0
  {
    InsertedRow(rows, w, i, |w.reply|);
    assert Storable(w, i);
  }

  /** A reply whose ids are UUIDs, with importances and stabilities between zero and one, commits. */
  lemma InUnitCommits(w: Write)
    requires |w.drafts| == |w.reply|
    requires forall i :: 0 <= i < |w.reply| ==>
      && (NamesRow(w.reply[i]) ==> w.reply[i].target.Uuid?)
      && (!w.reply[i].Retain? ==> 0.0 <= w.reply[i].importance <= 1.0)
      && (w.drafts[i].stability.Some? ==> 0.0 <= w.drafts[i].stability.value <= 1.0)
    ensures Commits(w)
  {
  }

  /** One malformed id, or one entry written outside those bounds, and the transaction changes nothing. */
  lemma AbortsOn(s: State, w: Write, i: nat)
    requires w.agent in s.agents && |w.drafts| == |w.reply| && i < |w.reply|
    requires var x := w.reply[i];
      || (!x.Create? && x.target.Malformed?)
      || (Written(w, i) && !(0.0 <= x.importance <= 1.0))
      || (Written(w, i) && x.Update? && w.drafts[i].stability.Some?
          && !(0.0 <= w.drafts[i].stability.value <= 1.0))
    ensures WriteReflections(s, w) == s
  {
    assert Written(w, i) ==> (Storable(w, i) ==> InUnit(w.reply[i].importance));
  }

  /** The audit entries follow the entries written, in order; that of an update names the row it replaces. */
  lemma {:induction false} TrailInOrder(w: Write, n: nat) returns (at: seq<nat>)
    requires n <= |w.reply| && |w.drafts| == |w.reply|
    ensures Increasing(at) && |at| == |Trail(w, n)|
    ensures forall i: nat :: i in at <==> i < n && Written(w, i)
    ensures forall k :: 0 <= k < |at| ==>
              && at[k] < n && !w.reply[at[k]].Retain?
              && var x, e := w.reply[at[k]], Trail(w, n)[k];
                 && e.agent == w.agent && e.operation == Reflected && e.target == w.drafts[at[k]].id
                 && (x.Update? ==> e.parent == Some(x.text)) && (x.Create? ==> e.parent == x.parent)
  {
    if n == 0 {
      at := [];
    } else {
      at := TrailInOrder(w, n - 1);
      if Written(w, n - 1) { at := AppendPlace(at, n - 1); }
    }
  }
}
