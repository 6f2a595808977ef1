/**
 * What recall shows of knowledge that reflection has replaced (src/qortia/reflect.py,
 * src/qortia/recall.py): a pruned row is ended and hidden; an updated one is not, and stays in view.
 */
module Staleness {
  import opened Wrappers
  import opened StoreModel
  import opened StoreRuns
  import Reflection
  import Remembering
  import RecallPipeline

  /** The columns of a memory that the searches look at; `validFrom` is not kept by the store model. */
  function RowOf(m: Memory, validFrom: Time): RecallPipeline.Row {
    RecallPipeline.Row(m.expiresAt, validFrom, m.validUntil)
  }

  predicate SearchesPrivate(search: RecallPipeline.Search) {
    search.KeywordPrivate? || search.VectorPrivate? || search.TypeRouted?
  }

  /**
   * A row that a write takes out of the consolidated ones is hidden from the searches from then on
   * exactly when it was pruned. An updated row is found as before.
   */
  lemma ReplacedIsHiddenIff(s: State, w: Reflection.Write, id: Id, search: RecallPipeline.Search,
                            validFrom: Time, at: Time)
    requires w.agent in s.agents && Reflection.Sound(s.rows) && Reflection.FreshDrafts(s.rows, w)
    requires id in Consolidated(s.rows, w.agent)
    requires id !in Consolidated(Reflection.WriteReflections(s, w).rows, w.agent)
    requires SearchesPrivate(search) && w.now <= at
    ensures var after := Reflection.WriteReflections(s, w).rows;
            && id in after
            && (RecallPipeline.Where(search, RowOf(after[id], validFrom), at, None) <==>
                RecallPipeline.Unexpired(RowOf(s.rows[id], validFrom), at)
                && !(Reflection.Prunes(s.rows, w) && id !in Reflection.ActiveIds(w.reply)))
  {
    var after := Reflection.WriteReflections(s, w).rows;
    Reflection.EndsValidityIff(s, w, id);
    AppliedRows(s.rows, w, |w.reply|);
    assert SameStamp(s.rows[id], after[id]);
    ShownUntilEnded(after[id], search, validFrom, at);
  }

  lemma ShownUntilEnded(m: Memory, search: RecallPipeline.Search, validFrom: Time, at: Time)
    requires SearchesPrivate(search) && (m.validUntil.Some? ==> m.validUntil.value <= at)
    ensures RecallPipeline.Where(search, RowOf(m, validFrom), at, None) <==>
            RecallPipeline.Unexpired(RowOf(m, validFrom), at) && m.validUntil == None
  {
  }

  /** The purge deletes only rows that these searches no longer show. */
  lemma PurgedWasHidden(s: State, id: Id, search: RecallPipeline.Search, validFrom: Time, now: Time,
                        asOf: Option<Time>)
    requires id in s.rows && id !in Purge(s, now).rows && SearchesPrivate(search)
    ensures s.rows[id].kind == ShortTerm && !RecallPipeline.Where(search, RowOf(s.rows[id], validFrom), now, asOf)
  {
    assert IsPurged(s.rows[id], now);
  }

  /** A reply that updates row 10 and nothing else. */
  function OneUpdate(normal: Reflection.Normal, now: Time): Reflection.Write {
    Reflection.Write(1, true, [Reflection.Update(Reflection.Uuid(10), Lesson, "new", 0.5, "10")],
                     [Reflection.Draft(20, [], None)], normal, 10, now)
  }

  lemma OneUpdateApplied(rows: Memories, normal: Reflection.Normal, m: Memory, now: Time)
    requires rows == map[10 := m] && m.agent == 1
    ensures Reflection.Applied(rows, OneUpdate(normal, now), 1) ==
            map[10 := m.(consolidated := false), 20 := Reflection.NewRow(OneUpdate(normal, now), 0)]
  {
    var w := OneUpdate(normal, now);
    assert Reflection.ActiveIds(w.reply) == [10] by { assert w.reply[..0] == []; }
    assert Reflection.Written(w, 0);
    assert Reflection.Pruned(rows, w) == rows;
    assert Reflection.Applied(rows, w, 0) == rows;
  }

  /** Here an update leaves the old row in view beside the new one, though only the new one is consolidated. */
  lemma OldShowsBesideNew(s: State, normal: Reflection.Normal, m: Memory, validFrom: Time, at: Time)
    requires s.rows == map[10 := m] && 1 in s.agents
    requires m.agent == 1 && m.consolidated && IsKnowledge(m.kind) && m.validUntil == None && m.expiresAt == None
    ensures var w := OneUpdate(normal, at);
            var after := Reflection.WriteReflections(s, w).rows;
            && Reflection.Sound(s.rows) && Reflection.FreshDrafts(s.rows, w) && Reflection.GoodIds(s.rows, w)
            && Consolidated(s.rows, 1) == {10} && Consolidated(after, 1) == {20}
            && 10 in after && RecallPipeline.Where(RecallPipeline.KeywordPrivate, RowOf(after[10], validFrom), at, None)
            && RecallPipeline.Where(RecallPipeline.KeywordPrivate, RowOf(after[20], validFrom), at, None)
  {
    OneUpdateApplied(s.rows, normal, m, at);
    assert Consolidated(s.rows, 1) == {10};
  }

  /** A row that was consolidated once, or never, and has no end of validity; an id that is gone counts too. */
  ghost predicate Unended(s: State, id: Id) {
    && id in Issued(s.history)
    && (id in s.rows ==> !s.rows[id].consolidated && s.rows[id].validUntil == None)
  }

  /** The prune looks at consolidated rows only, so it never ends one of these. */
  lemma UnendedAfterReflect(s: State, w: Reflection.Write, threshold: int, id: Id)
    requires Unended(s, id) && Enabled(s, DoReflect(w, false), threshold)
    ensures Unended(Reflection.WriteReflections(s, w), id)
  {
    if Reflection.Commits(w) {
      IssuedConcat(s.history, Reflection.Trail(w, |w.reply|));
      if id in s.rows {
        Reflection.EndedStays(s.rows, w, |w.reply|, id);
      } else if id in Reflection.WriteReflections(s, w).rows {
        ReflectNewIds(s, w, id);
      }
    }
  }

  lemma UnendedAfterRemember(s: State, b: Remembering.Batch, threshold: int, id: Id)
    requires Unended(s, id) && Enabled(s, DoRemember(b), threshold)
    ensures Unended(Remembering.Remember(s, b), id)
  {
    if Remembering.IsActive(s, b.agent) {
      Remembering.StoredRows(s.rows, b, |b.items|);
      IssuedConcat(s.history, Remembering.Trail(s.rows, b, |b.items|));
    }
  }

  lemma UnendedAfterStep(s: State, e: Event, threshold: int, id: Id)
    requires Unended(s, id) && Enabled(s, e, threshold)
    ensures Unended(Step(s, e, threshold), id)
  {
    match e
    case DoRemember(b) => UnendedAfterRemember(s, b, threshold, id);
    case DoReflect(w, _) => UnendedAfterReflect(s, w, threshold, id);
    case DoGraph(ids) => GraphFrame(s, ids);
    case DoLink(_, _, _) =>
    case DoForget(a, m) =>
      if MayForget(s, a, m) { IssuedConcat(s.history, [HistoryEntry(a, Forgotten, m, None)]); }
    case DoPurge(now) =>
    case DoArchive(ids) =>
  }

  /** Once a row is out of the consolidated ones without an end of validity, no later run gives it one. */
  lemma {:induction false} UnendedForGood(s: State, es: seq<Event>, threshold: int, id: Id)
    requires Unended(s, id) && IsRun(s, es, threshold)
    ensures Unended(Run(s, es, threshold), id)
    decreases |es|
  {
    if es == [] {
    } else {
      UnendedAfterStep(s, es[0], threshold, id);
      UnendedForGood(Step(s, es[0], threshold), es[1..], threshold, id);
    }
  }

  /**
   * A row that a write replaced by an update has no end of validity in any later state in which it
   * still exists, whatever happens in between.
   */
  lemma UpdatedRowIsNeverEnded(s: State, w: Reflection.Write, idle: bool, id: Id, es: seq<Event>, threshold: int)
    requires Valid(s) && Enabled(s, DoReflect(w, idle), threshold)
    requires id in Consolidated(s.rows, w.agent) && id in Reflection.ActiveIds(w.reply)
    requires id !in Consolidated(Reflection.WriteReflections(s, w).rows, w.agent)
    requires IsRun(Reflection.WriteReflections(s, w), es, threshold)
    ensures var t := Run(Reflection.WriteReflections(s, w), es, threshold);
            id in t.rows ==> !t.rows[id].consolidated && t.rows[id].validUntil == None
  {
    var s' := Reflection.WriteReflections(s, w);
    Reflection.EndsValidityIff(s, w, id);
    AppliedRows(s.rows, w, |w.reply|);
    IssuedConcat(s.history, Reflection.Trail(w, |w.reply|));
    UnendedForGood(s', es, threshold, id);
  }
}
