/**
 * The operations of the memory store, changing the tables step by step as the code does. Each
 * method is proved to leave exactly the state its specification function gives; the properties of
 * runs are proved about those functions.
 */
module MemoryStore {
  import opened Wrappers
  import opened StoreModel
  import Reflection
  import Remembering
  import EntityIndex
  import LinkTable
  import StoreRuns

  class Store {
    var rows: Memories
    var agents: map<AgentId, Agent>
    var index: Index
    var links: Links
    var history: seq<HistoryEntry>
    var clock: Time

    constructor (registered: map<AgentId, Agent>)
      ensures StoreRuns.IsEmpty(Snapshot()) && agents == registered && history == []
    {
      rows, agents, index, links, history, clock := map[], registered, map[], map[], [], 0;
    }

    function Snapshot(): State
      reads this
    {
      State(rows, agents, index, links, history, clock)
    }

    // ---- remember ----

    /** The id of some recent copy, if there is one. */
    method FindRecentCopy(a: AgentId, content: string, now: Time) returns (found: Option<Id>)
      ensures found.None? <==> !Remembering.HasRecentCopy(rows, a, content, now)
      ensures found.Some? ==> found.value in rows && Remembering.IsRecentCopy(rows[found.value], a, content, now)
    {
      var copies := set id | id in rows && Remembering.IsRecentCopy(rows[id], a, content, now);
      if copies == {} {
        assert forall id :: id in rows && Remembering.IsRecentCopy(rows[id], a, content, now) ==> id in copies;
        return None;
      }
      var id :| id in copies;
      return Some(id);
    }

    /** Stores one item, or finds the recent copy that stands for it. */
    method StoreItem(b: Remembering.Batch, i: nat) returns (id: Id, inserted: bool)
      requires i < |b.items| == |b.ids| && b.ids[i] !in rows
      modifies this`rows, this`history
      ensures inserted == Remembering.Inserts(old(rows), b, i)
      ensures rows == if inserted then old(rows)[b.ids[i] := Remembering.NewMemory(b, i)] else old(rows)
      ensures history == old(history) + if inserted then [HistoryEntry(b.agent, Remembered, b.ids[i], None)] else []
      ensures Stands(rows, b, i, id)
    {
      var item := b.items[i];
      if item.kind == Episodic || item.kind == Experiential {
        var copy := FindRecentCopy(b.agent, item.content, b.now);
        if copy.Some? { return copy.value, false; }
      }
      rows := rows[b.ids[i] := Remembering.NewMemory(b, i)];
      history := history + [HistoryEntry(b.agent, Remembered, b.ids[i], None)];
      return b.ids[i], true;
    }

    /** `id` is a row of the agent with the item's content. */
    static predicate Stands(table: Memories, b: Remembering.Batch, i: nat, id: Id)
      requires i < |b.items|
    {
      id in table && table[id].agent == b.agent && table[id].hash == Some(b.items[i].content)
    }

    /** Stores the items in order, and counts the episodic rows among those inserted. */
    method StoreItems(b: Remembering.Batch) returns (ids: seq<Id>, episodic: nat)
      requires Remembering.FreshIds(rows, b)
      modifies this`rows, this`history
      ensures rows == Remembering.Stored(old(rows), b, |b.items|)
      ensures history == old(history) + Remembering.Trail(old(rows), b, |b.items|)
      ensures episodic == Remembering.EpisodicCount(old(rows), b, |b.items|)
      ensures |ids| == |b.items| && forall i :: 0 <= i < |b.items| ==> Stands(rows, b, i, ids[i])
    {
      ids, episodic := [], 0;
      for i := 0 to |b.items|
        invariant rows == Remembering.Stored(old(rows), b, i)
        invariant history == old(history) + Remembering.Trail(old(rows), b, i)
        invariant episodic == Remembering.EpisodicCount(old(rows), b, i)
        invariant |ids| == i && forall j :: 0 <= j < i ==> Stands(rows, b, j, ids[j])
      {
        Remembering.IdIsNew(old(rows), b, i);
        var id, inserted := StoreItem(b, i);
        ids := ids + [id];
        if inserted && b.items[i].kind == Episodic { episodic := episodic + 1; }
      }
    }

    /**
     * Stores the items of a request. The answer lists, for each item, the new row or the recent
     * copy that stands for it.
     */
    method Remember(b: Remembering.Batch) returns (answer: Result<seq<Id>, Error>)
      requires Remembering.FreshIds(rows, b)
      modifies this
      ensures Snapshot() == Remembering.Remember(old(Snapshot()), b)
      ensures answer.Ok? <==> Remembering.IsActive(old(Snapshot()), b.agent)
      ensures answer.Ok? ==>
                |answer.value| == |b.items| && forall i :: 0 <= i < |b.items| ==> Stands(rows, b, i, answer.value[i])
    {
      if b.agent !in agents || !agents[b.agent].active { return Err(Forbidden); }
      var ids, episodic := StoreItems(b);
      if episodic > 0 {
        agents := agents[b.agent := agents[b.agent].(counter := agents[b.agent].counter + episodic)];
      }
      clock := b.now;
      return Ok(ids);
    }

    // ---- reflect ----

    /** The ids the reply names; None when one is no UUID. */
    method CollectActiveIds(reply: seq<Reflection.Action>) returns (active: Option<seq<Id>>)
      ensures active.None? <==>
              exists i :: 0 <= i < |reply| && Reflection.NamesRow(reply[i]) && reply[i].target.Malformed?
      ensures active.Some? ==> active.value == Reflection.ActiveIds(reply)
    {
      var ids: seq<Id> := [];
      for i := 0 to |reply|
        invariant ids == Reflection.ActiveIds(reply[..i])
        invariant forall j :: 0 <= j < i && Reflection.NamesRow(reply[j]) ==> reply[j].target.Uuid?
      {
        assert reply[..i + 1][..i] == reply[..i];
        if reply[i].Update? || reply[i].Retain? {
          if reply[i].target.Malformed? { return None; }
          ids := ids + [reply[i].target.id];
        }
      }
      assert reply[..|reply|] == reply;
      return Some(ids);
    }

    /** Counts, guards and prunes. */
    method Prune(w: Reflection.Write, active: seq<Id>)
      requires active == Reflection.ActiveIds(w.reply)
      modifies this`rows
      ensures rows == Reflection.Pruned(old(rows), w)
    {
      var safe := true;
      if w.existingSeen {
        var count := |Reflection.Counted(rows, w.agent)|;
        if count > 0 && |active| == 0 {
          safe := false;
        } else if count > 0 && |active| as real < count as real * 0.5 {
          safe := false;
        }
      }
      if w.existingSeen && safe {
        rows := map id | id in rows ::
          if rows[id].agent == w.agent && IsKnowledge(rows[id].kind) && rows[id].consolidated && id !in active
          then rows[id].(consolidated := false, validUntil := Some(w.now)) else rows[id];
      }
    }

    /** The normalised contents of the entries to write among the first `n`. */
    static ghost function Seen(w: Reflection.Write, n: nat): set<string>
      requires n <= |w.reply|
    {
      set j | 0 <= j < n && !w.reply[j].Retain? :: w.normal(w.reply[j].content)
    }

    static ghost function EntriesOf(a: AgentId, written: seq<(Id, Option<string>)>): seq<HistoryEntry> {
      seq(|written|, i requires 0 <= i < |written| => HistoryEntry(a, Reflected, written[i].0, written[i].1))
    }

    static lemma SeenStep(w: Reflection.Write, i: nat)
      requires i < |w.reply|
      ensures Seen(w, i + 1) == Seen(w, i) + if w.reply[i].Retain? then {} else {w.normal(w.reply[i].content)}
      ensures !w.reply[i].Retain? ==> (Reflection.Written(w, i) <==> w.normal(w.reply[i].content) !in Seen(w, i))
    {
    }

    /** Supersedes and inserts for one entry; false when a column check fails. */
    method WriteOne(w: Reflection.Write, i: nat) returns (stored: bool)
      requires i < |w.reply| && |w.drafts| == |w.reply| && Reflection.Written(w, i)
      requires Reflection.NamesRow(w.reply[i]) ==> w.reply[i].target.Uuid?
      modifies this`rows
      ensures stored <==> Reflection.Storable(w, i)
      ensures stored && !w.reply[i].Update? ==> rows == old(rows)[w.drafts[i].id := Reflection.NewRow(w, i)]
      ensures stored && w.reply[i].Update? ==>
                (var kept := Reflection.Superseded(old(rows), w.agent, w.reply[i].target);
                 rows == kept[w.drafts[i].id := Reflection.NewRow(w, i)])
    {
      var x := w.reply[i];
      var stability := if x.Update? then w.drafts[i].stability else None;
      if x.Update? {
        var target := x.target.id;
        if target in rows && rows[target].agent == w.agent {
          rows := rows[target := rows[target].(consolidated := false)];
        }
      }
      if !Reflection.InUnit(x.importance) || (stability.Some? && !Reflection.InUnit(stability.value)) { return false; }
      rows := rows[w.drafts[i].id :=
        Memory(w.agent, x.kind, x.content, x.importance, true, None, true, w.now, None, None, false,
               w.drafts[i].mentions)];
      return true;
    }

    /** The loop over the reply; None when a column check fails. */
    method WriteAll(w: Reflection.Write) returns (written: Option<seq<(Id, Option<string>)>>)
      requires |w.drafts| == |w.reply|
      requires forall i :: 0 <= i < |w.reply| && Reflection.NamesRow(w.reply[i]) ==> w.reply[i].target.Uuid?
      modifies this`rows
      ensures written.Some? <==>
              forall i :: 0 <= i < |w.reply| && Reflection.Written(w, i) ==> Reflection.Storable(w, i)
      ensures forall before :: old(rows) == Reflection.Pruned(before, w) && written.Some? ==>
                rows == Reflection.Applied(before, w, |w.reply|)
      ensures written.Some? ==> EntriesOf(w.agent, written.value) == Reflection.Trail(w, |w.reply|)
    {
      var newIds: seq<(Id, Option<string>)>, seen: set<string> := [], {};
      for i := 0 to |w.reply|
        invariant seen == Seen(w, i)
        invariant EntriesOf(w.agent, newIds) == Reflection.Trail(w, i)
        invariant forall before :: old(rows) == Reflection.Pruned(before, w) ==>
                    rows == Reflection.Applied(before, w, i)
        invariant forall j :: 0 <= j < i && Reflection.Written(w, j) ==> Reflection.Storable(w, j)
      {
        SeenStep(w, i);
        if w.reply[i].Retain? { continue; }
        var hash := w.normal(w.reply[i].content);
        if hash in seen { continue; }
        seen := seen + {hash};
        var stored := WriteOne(w, i);
        if !stored { return None; }
        newIds := newIds + [(w.drafts[i].id, Reflection.ParentOf(w.reply[i]))];
      }
      return Some(newIds);
    }

    /** One reflection write: all of it, or nothing when the transaction aborts. */
    method WriteReflections(w: Reflection.Write) returns (answer: Result<(nat, int), Error>)
      requires |w.drafts| == |w.reply| && w.agent in agents
      modifies this
      ensures Snapshot() == Reflection.WriteReflections(old(Snapshot()), w)
      ensures answer.Ok? <==> Reflection.Commits(w)
      ensures answer.Ok? ==> answer.value == (Reflection.WrittenCount(w, |w.reply|), agents[w.agent].counter)
    {
      var active := CollectActiveIds(w.reply);
      if active == None { return Err(Aborted); }
      var before := rows;
      Prune(w, active.value);
      var written := WriteAll(w);
      if written == None {
        rows := before;
        return Err(Aborted);
      }
      var counter := agents[w.agent].counter - w.threshold;
      agents := agents[w.agent := agents[w.agent].(counter := if counter > 0 then counter else 0)];
      Reflection.TrailNamesRows(w, |w.reply|);
      assert |EntriesOf(w.agent, written.value)| == |written.value|;
      RecordWrites(w.agent, written.value);
      clock := w.now;
      return Ok((|written.value|, agents[w.agent].counter));
    }

    method RecordWrites(a: AgentId, written: seq<(Id, Option<string>)>)
      modifies this`history
      ensures history == old(history) + EntriesOf(a, written)
    {
      for i := 0 to |written|
        invariant history == old(history) + EntriesOf(a, written[..i])
      {
        assert EntriesOf(a, written[..i + 1]) ==
               EntriesOf(a, written[..i]) + [HistoryEntry(a, Reflected, written[i].0, written[i].1)];
        history := history + [HistoryEntry(a, Reflected, written[i].0, written[i].1)];
      }
      assert written[..|written|] == written;
    }

    // ---- graph ----

    /** Lists a memory under each entity it mentions. */
    method IndexMentions(id: Id)
      requires id in rows
      modifies this`index
      ensures index == EntityIndex.Mentioned(old(index), id, rows[id], |rows[id].mentions|)
    {
      var m := rows[id];
      for i := 0 to |m.mentions|
        invariant index == EntityIndex.Mentioned(old(index), id, m, i)
      {
        var key := EntityKey(m.agent, m.mentions[i].text);
        if key !in index {
          index := index[key := Entity(m.mentions[i].kind, [id])];
        } else if id !in index[key].linked {
          index := index[key := Entity(m.mentions[i].kind, index[key].linked + [id])];
        }
      }
    }

    method PopulateGraphBatch(ids: seq<Id>)
      requires EntityIndex.IsBatch(rows, ids)
      modifies this
      ensures Snapshot() == EntityIndex.Graphed(old(Snapshot()), ids, |ids|)
    {
      for i := 0 to |ids|
        invariant forall j :: 0 <= j < |ids| ==> ids[j] in rows
        invariant Snapshot() == EntityIndex.Graphed(old(Snapshot()), ids, i)
      {
        IndexMentions(ids[i]);
        rows := rows[ids[i] := rows[ids[i]].(graphed := true)];
      }
    }

    // ---- links ----

    method UpsertMemoryLinks(m: Id, similar: seq<LinkTable.Similar>)
      modifies this`links
      ensures links == LinkTable.Linked(old(links), m, similar, |similar|)
    {
      for i := 0 to |similar|
        invariant links == LinkTable.Linked(old(links), m, similar, i)
      {
        var target, similarity := similar[i].id, similar[i].similarity;
        if (m, target) !in links { links := links[(m, target) := similarity]; }
        if (target, m) !in links { links := links[(target, m) := similarity]; }
      }
    }

    // ---- forget ----

    method Forget(a: AgentId, m: Id) returns (answer: Result<Id, Error>)
      modifies this
      ensures Snapshot() == StoreRuns.Forget(old(Snapshot()), a, m)
      ensures answer == if !Remembering.IsActive(old(Snapshot()), a) then Err(Forbidden)
                        else if m in old(rows) && old(rows)[m].agent == a then Ok(m) else Err(NotFound)
    {
      if a !in agents || !agents[a].active { return Err(Forbidden); }
      if m !in rows || rows[m].agent != a { return Err(NotFound); }
      rows := rows - {m};
      index := map key | key in index ::
        if m in index[key].linked then index[key].(linked := EntityIndex.Remove(index[key].linked, m)) else index[key];
      assert index == EntityIndex.Unlisted(old(index), m) by {
        forall key | key in old(index) && m !in old(index)[key].linked
          ensures EntityIndex.Remove(old(index)[key].linked, m) == old(index)[key].linked
        {
          RemoveAbsent(old(index)[key].linked, m);
        }
      }
      links := map p | p in links && p.0 != m && p.1 != m :: links[p];
      history := history + [HistoryEntry(a, Forgotten, m, None)];
      return Ok(m);
    }

    static lemma {:induction false} RemoveAbsent(s: seq<Id>, id: Id)
      requires id !in s
      ensures EntityIndex.Remove(s, id) == s
    {
      if s == [] {
      } else {
        RemoveAbsent(s[1..], id);
      }
    }
  }
}
