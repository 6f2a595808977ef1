/**
 * The entity index: for each agent and entity text, the memories that mention it
 * (`_populate_graph_batch` in src/qortia/entity_graph.py, cleanup in src/qortia/remember.py),
 * and its agreement with a plain scan of the memories.
 */
module EntityIndex {
  import opened Collections
  import opened StoreModel

  /** Adds a memory to an entity, creating the entity if need be; a memory already listed changes nothing. */
  function Upsert(index: Index, key: EntityKey, kind: string, id: Id): Index {
    if key !in index then index[key := Entity(kind, [id])]
    else if id in index[key].linked then index
    else index[key := Entity(kind, index[key].linked + [id])]
  }

  /** The index after the first `n` mentions of a memory. */
  function Mentioned(index: Index, id: Id, m: Memory, n: nat): Index
    requires n <= |m.mentions|
  {
    if n == 0 then index
    else Upsert(Mentioned(index, id, m, n - 1), EntityKey(m.agent, m.mentions[n - 1].text), m.mentions[n - 1].kind, id)
  }

  /** A memory the batch may pick: not graphed yet, with at least one mention. */
  predicate Pending(rows: Memories, id: Id) {
    id in rows && !rows[id].graphed && rows[id].mentions != []
  }

  const BATCH_LIMIT := 50

  /** The rows the batch query may return. */
  ghost predicate IsBatch(rows: Memories, ids: seq<Id>) {
    |ids| <= BATCH_LIMIT && Distinct(ids) && forall i :: 0 <= i < |ids| ==> Pending(rows, ids[i])
  }

  function GraphOne(s: State, id: Id): State
    requires id in s.rows
  {
    var m := s.rows[id];
    s.(index := Mentioned(s.index, id, m, |m.mentions|), rows := s.rows[id := m.(graphed := true)])
  }

  /** The state after the first `n` rows of a batch. */
  function Graphed(s: State, ids: seq<Id>, n: nat): (r: State)
    requires n <= |ids| && forall i :: 0 <= i < |ids| ==> ids[i] in s.rows
    ensures r.rows.Keys == s.rows.Keys
  {
    if n == 0 then s else GraphOne(Graphed(s, ids, n - 1), ids[n - 1])
  }

  /** array_remove on every entity. */
  function Unlisted(index: Index, id: Id): Index {
    map key | key in index :: index[key].(linked := Remove(index[key].linked, id))
  }

  function Remove(s: seq<Id>, id: Id): seq<Id> {
    if s == [] then [] else (if s[0] == id then [] else [s[0]]) + Remove(s[1..], id)
  }

  // ---- The invariant ----

  predicate Listed(index: Index, key: EntityKey, id: Id) {
    key in index && id in index[key].linked
  }

  predicate Mentions(m: Memory, text: string) {
    exists i :: 0 <= i < |m.mentions| && m.mentions[i].text == text
  }

  /** What a scan of the memories says about an entity. */
  predicate ScanFinds(rows: Memories, key: EntityKey, id: Id) {
    id in rows && rows[id].agent == key.agent && rows[id].graphed && Mentions(rows[id], key.text)
  }

  /** For live memories the index and the scan agree. */
  ghost predicate Agrees(rows: Memories, index: Index) {
    forall key, id :: id in rows ==> (Listed(index, key, id) <==> ScanFinds(rows, key, id))
  }

  /** No memory is listed twice under an entity. */
  ghost predicate ListedOnce(index: Index) {
    forall key :: key in index ==> Distinct(index[key].linked)
  }

  // ---- Populating ----

  lemma {:induction false} MentionedLists(index: Index, id: Id, m: Memory, n: nat, key: EntityKey, x: Id)
    requires n <= |m.mentions|
    ensures Listed(Mentioned(index, id, m, n), key, x) <==>
            || Listed(index, key, x)
            || (x == id && key.agent == m.agent && exists i :: 0 <= i < n && m.mentions[i].text == key.text)
  {
    if n == 0 {
    } else {
      MentionedLists(index, id, m, n - 1, key, x);
      UpsertLists(Mentioned(index, id, m, n - 1), EntityKey(m.agent, m.mentions[n - 1].text), m.mentions[n - 1].kind,
                  id, key, x);
    }
  }

  lemma UpsertLists(index: Index, at: EntityKey, kind: string, id: Id, key: EntityKey, x: Id)
    ensures Listed(Upsert(index, at, kind, id), key, x) <==> Listed(index, key, x) || (key == at && x == id)
  {
  }

  lemma {:induction false} MentionedListsOnce(index: Index, id: Id, m: Memory, n: nat)
    requires n <= |m.mentions| && ListedOnce(index)
    ensures ListedOnce(Mentioned(index, id, m, n))
  {
    if n == 0 {
    } else {
      MentionedListsOnce(index, id, m, n - 1);
    }
  }

  lemma GraphOneAgrees(s: State, id: Id)
    requires id in s.rows && Agrees(s.rows, s.index) && ListedOnce(s.index)
    ensures Agrees(GraphOne(s, id).rows, GraphOne(s, id).index) && ListedOnce(GraphOne(s, id).index)
  {
    var m, after := s.rows[id], GraphOne(s, id);
    forall key, x | x in after.rows ensures Listed(after.index, key, x) <==> ScanFinds(after.rows, key, x) {
      MentionedLists(s.index, id, m, |m.mentions|, key, x);
      assert Listed(s.index, key, x) <==> ScanFinds(s.rows, key, x);
    }
    MentionedListsOnce(s.index, id, m, |m.mentions|);
  }

  lemma {:induction false} GraphedAgrees(s: State, ids: seq<Id>, n: nat)
    requires n <= |ids| && (forall i :: 0 <= i < |ids| ==> ids[i] in s.rows)
    requires Agrees(s.rows, s.index) && ListedOnce(s.index)
    ensures Agrees(Graphed(s, ids, n).rows, Graphed(s, ids, n).index) && ListedOnce(Graphed(s, ids, n).index)
  {
    if n == 0 {
    } else {
      GraphedAgrees(s, ids, n - 1);
      GraphOneAgrees(Graphed(s, ids, n - 1), ids[n - 1]);
    }
  }

  lemma InPrefix(ids: seq<Id>, i: nat, id: Id)
    requires i < |ids|
    ensures id in ids[..i + 1] <==> id in ids[..i] || id == ids[i]
  {
    assert ids[..i + 1] == ids[..i] + [ids[i]];
  }

  /** Only the flag changes on the rows of a batch, and only on those. */
  lemma {:induction false} GraphedRows(s: State, ids: seq<Id>, n: nat, id: Id)
    requires n <= |ids| && (forall i :: 0 <= i < |ids| ==> ids[i] in s.rows) && id in s.rows
    ensures Graphed(s, ids, n).rows[id] == s.rows[id].(graphed := s.rows[id].graphed || id in ids[..n])
  {
    if n == 0 {
    } else {
      GraphedRows(s, ids, n - 1, id);
      InPrefix(ids, n - 1, id);
    }
  }

  lemma {:induction false} GraphedTables(s: State, ids: seq<Id>, n: nat)
    requires n <= |ids| && forall i :: 0 <= i < |ids| ==> ids[i] in s.rows
    ensures var t := Graphed(s, ids, n);
            t.agents == s.agents && t.links == s.links && t.history == s.history && t.clock == s.clock
  {
    if n == 0 {
    } else {
      GraphedTables(s, ids, n - 1);
    }
  }

  /** A memory the index newly lists is one of the batch. */
  lemma {:induction false} GraphedListsBatch(s: State, ids: seq<Id>, n: nat, key: EntityKey, x: Id)
    requires n <= |ids| && (forall i :: 0 <= i < |ids| ==> ids[i] in s.rows)
    requires Listed(Graphed(s, ids, n).index, key, x)
    ensures Listed(s.index, key, x) || x in s.rows
  {
    if n == 0 {
    } else {
      var before := Graphed(s, ids, n - 1);
      MentionedLists(before.index, ids[n - 1], before.rows[ids[n - 1]], |before.rows[ids[n - 1]].mentions|, key, x);
      if Listed(before.index, key, x) { GraphedListsBatch(s, ids, n - 1, key, x); }
    }
  }

  // ---- Forgetting ----

  lemma {:induction false} RemoveMembers(s: seq<Id>, id: Id)
    ensures forall x :: x in Remove(s, id) <==> x in s && x != id
  {
    if s == [] {
    } else {
      RemoveMembers(s[1..], id);
      assert forall x :: x in s <==> x == s[0] || x in s[1..];
    }
  }

  lemma DistinctTail(s: seq<Id>)
    requires s != [] && Distinct(s)
    ensures Distinct(s[1..]) && s[0] !in s[1..]
  {
    assert forall k :: 0 <= k < |s[1..]| ==> s[1..][k] == s[k + 1] != s[0];
  }

  lemma {:induction false} RemoveKeepsDistinct(s: seq<Id>, id: Id)
    requires Distinct(s)
    ensures Distinct(Remove(s, id))
  {
    if s == [] {
    } else {
      DistinctTail(s);
      RemoveMembers(s[1..], id);
      RemoveKeepsDistinct(s[1..], id);
    }
  }

  lemma UnlistedLists(index: Index, id: Id)
    ensures forall key, x :: Listed(Unlisted(index, id), key, x) <==> Listed(index, key, x) && x != id
    ensures ListedOnce(index) ==> ListedOnce(Unlisted(index, id))
  {
    forall key | key in index
      ensures forall x :: x in Remove(index[key].linked, id) <==> x in index[key].linked && x != id
      ensures Distinct(index[key].linked) ==> Distinct(Remove(index[key].linked, id))
    {
      RemoveMembers(index[key].linked, id);
      if Distinct(index[key].linked) { RemoveKeepsDistinct(index[key].linked, id); }
    }
  }

  // ---- What recall reads from it ----

  const DEFAULT_CLEARANCE := 2

  /**
   * The private memories recall boosts for the entities of a query. Entities carry the default
   * clearance, so an agent below it sees none.
   */
  function EntityLinks(index: Index, a: AgentId, texts: seq<string>, clearance: int): set<Id> {
    if DEFAULT_CLEARANCE <= clearance
    then set key, id | key in index && key.agent == a && key.text in texts && id in index[key].linked :: id
    else {}
  }

  /** The scan it replaces: the agent's graphed memories that mention one of the texts. */
  function ScanLinks(rows: Memories, a: AgentId, texts: seq<string>): set<Id> {
    set id | id in rows && rows[id].agent == a && rows[id].graphed && exists t :: t in texts && Mentions(rows[id], t)
  }

  /** What recall reads, restricted to live memories. */
  function LiveLinks(rows: Memories, index: Index, a: AgentId, texts: seq<string>, clearance: int): set<Id> {
    set id | id in EntityLinks(index, a, texts, clearance) && id in rows
  }

  /**
   * The set recall reads equals the scan exactly when the agent has the default clearance or the
   * scan finds nothing anyway.
   */
  lemma EntityLinksAreScan(rows: Memories, index: Index, a: AgentId, texts: seq<string>, clearance: int)
    requires Agrees(rows, index)
    ensures LiveLinks(rows, index, a, texts, clearance) == ScanLinks(rows, a, texts) <==>
            clearance >= DEFAULT_CLEARANCE || ScanLinks(rows, a, texts) == {}
  {
    if clearance >= DEFAULT_CLEARANCE {
      forall id | id in rows
        ensures id in EntityLinks(index, a, texts, clearance) <==> id in ScanLinks(rows, a, texts)
      {
        LinkIsScanned(rows, index, a, texts, clearance, id);
      }
    } else {
      assert LiveLinks(rows, index, a, texts, clearance) == {};
    }
  }

  lemma LinkIsScanned(rows: Memories, index: Index, a: AgentId, texts: seq<string>, clearance: int, id: Id)
    requires Agrees(rows, index) && clearance >= DEFAULT_CLEARANCE && id in rows
    ensures id in EntityLinks(index, a, texts, clearance) <==> id in ScanLinks(rows, a, texts)
  {
    if id in ScanLinks(rows, a, texts) {
      var t :| t in texts && Mentions(rows[id], t);
      assert Listed(index, EntityKey(a, t), id);
      assert EntityKey(a, t) in index;
    }
    if id in EntityLinks(index, a, texts, clearance) {
      var key :| key in index && key.agent == a && key.text in texts && id in index[key].linked;
      assert Listed(index, key, id);
    }
  }

  /** Below the default clearance recall misses what the scan finds: here the agent's only memory. */
  lemma LowClearanceMisses(m: Memory)
    requires m.agent == 1 && m.graphed && m.mentions == [Mention("Delft", "GPE")]
    ensures var rows: Memories := map[10 := m];
            var index: Index := map[EntityKey(1, "Delft") := Entity("GPE", [10])];
            && Agrees(rows, index) && ListedOnce(index)
            && ScanLinks(rows, 1, ["Delft"]) == {10} && LiveLinks(rows, index, 1, ["Delft"], 1) == {}
  {
    var rows: Memories := map[10 := m];
    assert m.mentions[0].text == "Delft";
    assert Mentions(rows[10], "Delft") && "Delft" in ["Delft"];
    assert ScanLinks(rows, 1, ["Delft"]) == {10};
  }

  // ---- What an entity row holds after indexing ----

  /** The first `n` mentions of a memory name the entity. */
  predicate Names(m: Memory, n: nat, key: EntityKey)
    requires n <= |m.mentions|
  {
    key.agent == m.agent && exists i :: 0 <= i < n && m.mentions[i].text == key.text
  }

  /** Entities the memory does not name, and those that list it already, stay as they are. */
  lemma {:induction false} UnnamedStays(index: Index, id: Id, m: Memory, n: nat, key: EntityKey)
    requires n <= |m.mentions| && (!Names(m, n, key) || Listed(index, key, id))
    ensures key in Mentioned(index, id, m, n) <==> key in index
    ensures key in index ==> Mentioned(index, id, m, n)[key] == index[key]
  {
    if n == 0 {
    } else {
      UnnamedStays(index, id, m, n - 1, key);
    }
  }

  /** An entity newly named gets the memory at the end of its list, and the type of the first mention. */
  lemma {:induction false} NamedGains(index: Index, id: Id, m: Memory, n: nat, key: EntityKey, first: nat)
    requires first < n <= |m.mentions| && key.agent == m.agent && !Listed(index, key, id)
    requires m.mentions[first].text == key.text && forall i :: 0 <= i < first ==> m.mentions[i].text != key.text
    ensures key in Mentioned(index, id, m, n)
    ensures Mentioned(index, id, m, n)[key] ==
            Entity(m.mentions[first].kind, (if key in index then index[key].linked else []) + [id])
  {
    if n == first + 1 {
      UnnamedStays(index, id, m, first, key);
    } else {
      NamedGains(index, id, m, n - 1, key, first);
    }
  }
}
