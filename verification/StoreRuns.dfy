/**
 * Runs of the memory store: any interleaving of requests and background tasks of all agents, each
 * transaction one step. What every step keeps, and what holds of whole runs.
 */
module StoreRuns {
  import opened Wrappers
  import opened StoreModel
  import Reflection
  import Remembering
  import EntityIndex
  import LinkTable

  datatype Event =
    | DoRemember(b: Remembering.Batch)
    | DoReflect(w: Reflection.Write, idle: bool)
    | DoGraph(ids: seq<Id>)
    | DoLink(m: Id, now: Time, similar: seq<LinkTable.Similar>)
    | DoForget(agent: AgentId, target: Id)
    | DoPurge(now: Time)
    | DoArchive(aged: set<Id>)

  // ---- The steps ----

  predicate MayForget(s: State, a: AgentId, m: Id) {
    Remembering.IsActive(s, a) && m in s.rows && s.rows[m].agent == a
  }

  /** Deletes a memory of the agent with its index entries and links; anything else is refused. */
  function Forget(s: State, a: AgentId, m: Id): State {
    if !MayForget(s, a, m) then s
    else s.(rows := s.rows - {m}, index := EntityIndex.Unlisted(s.index, m), links := LinkTable.Unlinked(s.links, m),
            history := s.history + [HistoryEntry(a, Forgotten, m, None)])
  }

  predicate IsPurged(m: Memory, now: Time) {
    m.kind == ShortTerm && m.expiresAt.Some? && m.expiresAt.value < now
  }

  /** Deletes expired short-term rows, and nothing but the rows. */
  function Purge(s: State, now: Time): State {
    s.(rows := map id | id in s.rows && !IsPurged(s.rows[id], now) :: s.rows[id], clock := now)
  }

  /** Moves rows to the archive. */
  function Archive(s: State, ids: set<Id>): State {
    s.(rows := map id | id in s.rows :: if id in ids then s.rows[id].(active := false) else s.rows[id])
  }

  /**
   * What a step may ask for: ids never issued before, a clock that does not run back, a batch and
   * similar rows as the queries return them, and for the idle trigger a counter at the threshold.
   */
  ghost predicate Enabled(s: State, e: Event, threshold: int) {
    match e
    case DoRemember(b) =>
      && Remembering.FreshIds(s.rows, b) && s.clock <= b.now
      && forall i :: 0 <= i < |b.ids| ==> b.ids[i] !in Issued(s.history)
    case DoReflect(w, idle) =>
      && Reflection.FreshDrafts(s.rows, w) && Reflection.WellFormed(w) && w.agent in s.agents && s.clock <= w.now
      && w.threshold == threshold
      && (forall i :: 0 <= i < |w.drafts| ==> w.drafts[i].id !in Issued(s.history))
      && (idle ==> s.agents[w.agent].counter >= threshold)
    case DoGraph(ids) => EntityIndex.IsBatch(s.rows, ids)
    case DoLink(m, now, similar) => LinkTable.IsSimilar(s.rows, m, now, similar)
    case DoForget(_, _) => true
    case DoPurge(now) => s.clock <= now
    case DoArchive(_) => true
  }

  ghost function Step(s: State, e: Event, threshold: int): State
    requires Enabled(s, e, threshold)
  {
    match e
    case DoRemember(b) => Remembering.Remember(s, b)
    case DoReflect(w, _) => Reflection.WriteReflections(s, w)
    case DoGraph(ids) => EntityIndex.Graphed(s, ids, |ids|)
    case DoLink(m, _, similar) => s.(links := LinkTable.Linked(s.links, m, similar, |similar|))
    case DoForget(a, m) => Forget(s, a, m)
    case DoPurge(now) => Purge(s, now)
    case DoArchive(ids) => Archive(s, ids)
  }

  ghost predicate IsRun(s: State, es: seq<Event>, threshold: int)
    decreases |es|
  {
    es != [] ==> Enabled(s, es[0], threshold) && IsRun(Step(s, es[0], threshold), es[1..], threshold)
  }

  ghost function Run(s: State, es: seq<Event>, threshold: int): State
    requires IsRun(s, es, threshold)
    decreases |es|
  {
    if es == [] then s else Run(Step(s, es[0], threshold), es[1..], threshold)
  }

  // ---- What every step keeps ----

  /** Every id in the tables was issued by an insertion on record. */
  ghost predicate OnRecord(s: State) {
    && s.rows.Keys <= Issued(s.history)
    && (forall key, id :: EntityIndex.Listed(s.index, key, id) ==> id in Issued(s.history))
    && (forall x, y :: (x, y) in s.links ==> x in Issued(s.history) && y in Issued(s.history))
  }

  ghost predicate IndexSound(s: State) {
    EntityIndex.Agrees(s.rows, s.index) && EntityIndex.ListedOnce(s.index)
  }

  ghost predicate SpacedOut(s: State) {
    Remembering.NoRecentRepeat(s.rows) && Remembering.CreatedBy(s.rows, s.clock)
  }

  ghost predicate Valid(s: State) {
    && Reflection.Sound(s.rows)
    && OnRecord(s)
    && IndexSound(s)
    && LinkTable.Symmetric(s.links)
    && SpacedOut(s)
  }

  /** The columns that neither the prune nor a supersession touches. */
  predicate SameStamp(x: Memory, y: Memory) {
    y == x.(consolidated := y.consolidated, validUntil := y.validUntil)
  }

  /** Old rows keep their stamps. */
  lemma {:induction false} OldRowsKeepStamps(rows: Memories, w: Reflection.Write, n: nat, id: Id)
    requires n <= |w.reply| && Reflection.FreshDrafts(rows, w) && id in rows
    ensures id in Reflection.Applied(rows, w, n) && SameStamp(rows[id], Reflection.Applied(rows, w, n)[id])
  {
    if n == 0 {
    } else {
      OldRowsKeepStamps(rows, w, n - 1, id);
    }
  }

  /** New rows have no content hash and are not graphed yet. */
  lemma {:induction false} NewRowsAreBlank(rows: Memories, w: Reflection.Write, n: nat, id: Id)
    requires n <= |w.reply| && Reflection.FreshDrafts(rows, w) && id in Reflection.Applied(rows, w, n) && id !in rows
    ensures var m := Reflection.Applied(rows, w, n)[id];
            m.hash == None && !m.graphed && m.createdAt == w.now
  {
    if n == 0 {
    } else if id in Reflection.Applied(rows, w, n - 1) {
      NewRowsAreBlank(rows, w, n - 1, id);
    }
  }

  lemma AppliedRows(rows: Memories, w: Reflection.Write, n: nat)
    requires n <= |w.reply| && Reflection.FreshDrafts(rows, w)
    ensures var after := Reflection.Applied(rows, w, n);
      && after.Keys == rows.Keys + Reflection.Inserted(w, n)
      && (forall id :: id in rows ==> SameStamp(rows[id], after[id]))
      && (forall id :: id in after && id !in rows ==>
            after[id].hash == None && !after[id].graphed && after[id].createdAt == w.now)
  {
    Reflection.AppliedKeys(rows, w, n);
    var after := Reflection.Applied(rows, w, n);
    forall id | id in rows ensures SameStamp(rows[id], after[id]) { OldRowsKeepStamps(rows, w, n, id); }
    forall id | id in after && id !in rows
      ensures after[id].hash == None && !after[id].graphed && after[id].createdAt == w.now
    {
      NewRowsAreBlank(rows, w, n, id);
    }
  }

  lemma InsertedAreDrafts(w: Reflection.Write, n: nat, id: Id)
    requires n <= |w.reply| == |w.drafts| && id in Reflection.Inserted(w, n)
    ensures exists i :: 0 <= i < |w.drafts| && w.drafts[i].id == id
  {
    Reflection.InsertedBelow(w, n, id);
  }

  /** New rows that are neither graphed nor listed, and old rows with the same mentions, keep the index in agreement. */
  lemma AgreementExtends(rows: Memories, rows': Memories, index: Index)
    requires EntityIndex.Agrees(rows, index)
    requires forall id :: id in rows' && id in rows ==>
      && rows'[id].agent == rows[id].agent && rows'[id].graphed == rows[id].graphed
      && rows'[id].mentions == rows[id].mentions
    requires forall id :: id in rows' && id !in rows ==>
      !rows'[id].graphed && forall key :: !EntityIndex.Listed(index, key, id)
    ensures EntityIndex.Agrees(rows', index)
  {
    forall key, id | id in rows' ensures EntityIndex.Listed(index, key, id) <==> EntityIndex.ScanFinds(rows', key, id) {
      if id in rows {
        assert EntityIndex.Listed(index, key, id) <==> EntityIndex.ScanFinds(rows, key, id);
      }
    }
  }

  /** Rows that keep what the spacing looks at, and new rows without a hash, stay spaced out. */
  lemma SpacingKept(rows: Memories, rows': Memories, before: Time, now: Time)
    requires Remembering.NoRecentRepeat(rows) && Remembering.CreatedBy(rows, before) && before <= now
    requires forall id :: id in rows' ==>
      if id in rows then SameOrigin(rows[id], rows'[id]) else rows'[id].hash == None && rows'[id].createdAt <= now
    ensures Remembering.NoRecentRepeat(rows') && Remembering.CreatedBy(rows', now)
  {
  }

  predicate SameOrigin(x: Memory, y: Memory) {
    && x.agent == y.agent && x.kind == y.kind && x.hash == y.hash && x.createdAt == y.createdAt
    && (y.active ==> x.active)
  }

  lemma RememberKeeps(s: State, b: Remembering.Batch)
    requires Valid(s) && Enabled(s, DoRemember(b), 0)
    ensures Valid(Remembering.Remember(s, b))
  {
    if Remembering.IsActive(s, b.agent) {
      var n, s' := |b.items|, Remembering.Remember(s, b);
      Remembering.StoredRows(s.rows, b, n);
      Remembering.TrailNamesRows(s.rows, b, n);
      IssuedConcat(s.history, Remembering.Trail(s.rows, b, n));
      assert forall id :: id in s'.rows && id !in s.rows ==>
        !s'.rows[id].graphed && !s'.rows[id].consolidated && id !in Issued(s.history);
      AgreementExtends(s.rows, s'.rows, s.index);
      Remembering.StoringKeepsApart(s.rows, b, n);
    }
  }

  lemma ReflectNewIds(s: State, w: Reflection.Write, id: Id)
    requires Enabled(s, DoReflect(w, false), w.threshold) && Reflection.Commits(w)
    requires id in Reflection.WriteReflections(s, w).rows && id !in s.rows
    ensures id !in Issued(s.history) && id in Issued(Reflection.WriteReflections(s, w).history)
  {
    AppliedRows(s.rows, w, |w.reply|);
    InsertedAreDrafts(w, |w.reply|, id);
    Reflection.RowsAndTrailAgree(w);
    IssuedConcat(s.history, Reflection.Trail(w, |w.reply|));
  }

  lemma ReflectKeepsRecord(s: State, w: Reflection.Write)
    requires OnRecord(s) && Enabled(s, DoReflect(w, false), w.threshold) && Reflection.Commits(w)
    ensures OnRecord(Reflection.WriteReflections(s, w))
  {
    var s' := Reflection.WriteReflections(s, w);
    IssuedConcat(s.history, Reflection.Trail(w, |w.reply|));
    forall id | id in s'.rows && id !in s.rows ensures id in Issued(s'.history) { ReflectNewIds(s, w, id); }
  }

  lemma ReflectKeepsIndex(s: State, w: Reflection.Write)
    requires OnRecord(s) && IndexSound(s) && Enabled(s, DoReflect(w, false), w.threshold) && Reflection.Commits(w)
    ensures IndexSound(Reflection.WriteReflections(s, w))
  {
    var s' := Reflection.WriteReflections(s, w);
    AppliedRows(s.rows, w, |w.reply|);
    forall id | id in s'.rows && id !in s.rows ensures id !in Issued(s.history) { ReflectNewIds(s, w, id); }
    AgreementExtends(s.rows, s'.rows, s.index);
  }

  lemma ReflectKeeps(s: State, w: Reflection.Write)
    requires Valid(s) && Enabled(s, DoReflect(w, false), w.threshold)
    ensures Valid(Reflection.WriteReflections(s, w))
  {
    if Reflection.Commits(w) {
      Reflection.AppliedIsSound(s.rows, w, |w.reply|);
      ReflectKeepsRecord(s, w);
      ReflectKeepsIndex(s, w);
      AppliedRows(s.rows, w, |w.reply|);
      SpacingKept(s.rows, Reflection.Applied(s.rows, w, |w.reply|), s.clock, w.now);
    }
  }

  lemma GraphKeeps(s: State, ids: seq<Id>)
    requires Valid(s) && EntityIndex.IsBatch(s.rows, ids)
    ensures Valid(EntityIndex.Graphed(s, ids, |ids|))
  {
    var s' := EntityIndex.Graphed(s, ids, |ids|);
    EntityIndex.GraphedAgrees(s, ids, |ids|);
    GraphFrame(s, ids);
    SpacingKept(s.rows, s'.rows, s.clock, s.clock);
    forall key, id | EntityIndex.Listed(s'.index, key, id) ensures id in Issued(s'.history) {
      EntityIndex.GraphedListsBatch(s, ids, |ids|, key, id);
    }
  }

  /** Graphing changes nothing but the index and the flags. */
  lemma GraphFrame(s: State, ids: seq<Id>)
    requires forall i :: 0 <= i < |ids| ==> ids[i] in s.rows
    ensures var s' := EntityIndex.Graphed(s, ids, |ids|);
      && s'.agents == s.agents && s'.links == s.links && s'.history == s.history && s'.clock == s.clock
      && s'.rows.Keys == s.rows.Keys
      && forall id :: id in s.rows ==> s'.rows[id] == s.rows[id].(graphed := s'.rows[id].graphed)
  {
    var s' := EntityIndex.Graphed(s, ids, |ids|);
    forall id | id in s.rows ensures s'.rows[id] == s.rows[id].(graphed := s'.rows[id].graphed) {
      EntityIndex.GraphedRows(s, ids, |ids|, id);
    }
    EntityIndex.GraphedTables(s, ids, |ids|);
  }

  lemma LinkKeeps(s: State, m: Id, now: Time, similar: seq<LinkTable.Similar>)
    requires Valid(s) && LinkTable.IsSimilar(s.rows, m, now, similar)
    ensures Valid(s.(links := LinkTable.Linked(s.links, m, similar, |similar|)))
  {
    LinkTable.LinkedKeeps(s.links, m, similar, |similar|);
    forall x, y | (x, y) in LinkTable.Linked(s.links, m, similar, |similar|)
      ensures x in Issued(s.history) && y in Issued(s.history)
    {
      LinkTable.LinkedPairs(s.links, m, similar, |similar|, (x, y));
    }
  }

  lemma ForgetKeeps(s: State, a: AgentId, m: Id)
    requires Valid(s)
    ensures Valid(Forget(s, a, m))
  {
    if MayForget(s, a, m) {
      var s' := Forget(s, a, m);
      IssuedConcat(s.history, [HistoryEntry(a, Forgotten, m, None)]);
      EntityIndex.UnlistedLists(s.index, m);
      LinkTable.UnlinkedKeeps(s.links, m);
      forall key, id | id in s'.rows
        ensures EntityIndex.Listed(s'.index, key, id) <==> EntityIndex.ScanFinds(s'.rows, key, id)
      {
        assert EntityIndex.Listed(s.index, key, id) <==> EntityIndex.ScanFinds(s.rows, key, id);
      }
    }
  }

  lemma PurgeKeeps(s: State, now: Time)
    requires Valid(s) && s.clock <= now
    ensures Valid(Purge(s, now))
  {
    AgreementExtends(s.rows, Purge(s, now).rows, s.index);
  }

  lemma ArchiveKeeps(s: State, ids: set<Id>)
    requires Valid(s)
    ensures Valid(Archive(s, ids))
  {
    ArchiveKeepsIndex(s, ids);
    ArchiveKeepsSpacing(s, ids);
  }

  lemma ArchiveKeepsIndex(s: State, ids: set<Id>)
    requires IndexSound(s)
    ensures IndexSound(Archive(s, ids))
  {
    AgreementExtends(s.rows, Archive(s, ids).rows, s.index);
  }

  lemma ArchiveKeepsSpacing(s: State, ids: set<Id>)
    requires SpacedOut(s)
    ensures SpacedOut(Archive(s, ids))
  {
    SpacingKept(s.rows, Archive(s, ids).rows, s.clock, s.clock);
  }

  lemma StepKeepsValid(s: State, e: Event, threshold: int)
    requires Valid(s) && Enabled(s, e, threshold)
    ensures Valid(Step(s, e, threshold))
  {
    match e
    case DoRemember(b) => RememberKeeps(s, b);
    case DoReflect(w, _) => ReflectKeeps(s, w);
    case DoGraph(ids) => GraphKeeps(s, ids);
    case DoLink(m, now, similar) => LinkKeeps(s, m, now, similar);
    case DoForget(a, m) => ForgetKeeps(s, a, m);
    case DoPurge(now) => PurgeKeeps(s, now);
    case DoArchive(ids) => ArchiveKeeps(s, ids);
  }

  /** A store without memories. */
  predicate IsEmpty(s: State) {
    s.rows == map[] && s.index == map[] && s.links == map[]
  }

  lemma EmptyIsValid(s: State)
    requires IsEmpty(s)
    ensures Valid(s)
  {
  }

  /** In every run from a valid state, all invariants hold at the end. */
  lemma {:induction false} RunKeepsValid(s: State, es: seq<Event>, threshold: int)
    requires Valid(s) && IsRun(s, es, threshold)
    ensures Valid(Run(s, es, threshold))
    decreases |es|
  {
    if es == [] {
    } else {
      StepKeepsValid(s, es[0], threshold);
      RunKeepsValid(Step(s, es[0], threshold), es[1..], threshold);
    }
  }

  // ---- The index ----

  /**
   * After any run from an empty store no memory is listed twice, and the set recall reads from the
   * index equals the scan of the live memories it replaces: for every agent with the default
   * clearance, and for others exactly when the scan finds nothing.
   */
  lemma IndexAgreesAfterRun(s: State, es: seq<Event>, threshold: int, a: AgentId, texts: seq<string>, clearance: int)
    requires IsEmpty(s) && IsRun(s, es, threshold)
    ensures var t := Run(s, es, threshold); EntityIndex.ListedOnce(t.index)
    ensures var t := Run(s, es, threshold);
            EntityIndex.LiveLinks(t.rows, t.index, a, texts, clearance) == EntityIndex.ScanLinks(t.rows, a, texts) <==>
            clearance >= EntityIndex.DEFAULT_CLEARANCE || EntityIndex.ScanLinks(t.rows, a, texts) == {}
  {
    EmptyIsValid(s);
    RunKeepsValid(s, es, threshold);
    var t := Run(s, es, threshold);
    EntityIndex.EntityLinksAreScan(t.rows, t.index, a, texts, clearance);
  }

  // ---- Forgetting is for good ----

  /** No row, index entry or link names `m`, and its id is on record, so it is not issued again. */
  ghost predicate Gone(s: State, m: Id) {
    && m in Issued(s.history) && m !in s.rows
    && (forall key :: !EntityIndex.Listed(s.index, key, m))
    && !LinkTable.NamedInLinks(s.links, m)
  }

  lemma ForgetRemoves(s: State, a: AgentId, m: Id)
    requires Valid(s) && MayForget(s, a, m)
    ensures Gone(Forget(s, a, m), m)
  {
    IssuedConcat(s.history, [HistoryEntry(a, Forgotten, m, None)]);
    EntityIndex.UnlistedLists(s.index, m);
    LinkTable.UnlinkedKeeps(s.links, m);
  }

  lemma GoneAfterInsert(s: State, s': State, m: Id)
    requires Gone(s, m) && s'.index == s.index && s'.links == s.links
    requires Issued(s.history) <= Issued(s'.history)
    requires forall id :: id in s'.rows && id !in s.rows ==> id !in Issued(s.history)
    ensures Gone(s', m)
  {
  }

  lemma GoneAfterGraph(s: State, ids: seq<Id>, m: Id)
    requires Gone(s, m) && EntityIndex.IsBatch(s.rows, ids)
    ensures Gone(EntityIndex.Graphed(s, ids, |ids|), m)
  {
    GraphFrame(s, ids);
    forall key ensures !EntityIndex.Listed(EntityIndex.Graphed(s, ids, |ids|).index, key, m) {
      if EntityIndex.Listed(EntityIndex.Graphed(s, ids, |ids|).index, key, m) {
        EntityIndex.GraphedListsBatch(s, ids, |ids|, key, m);
      }
    }
  }

  lemma GoneAfterLink(s: State, x: Id, now: Time, similar: seq<LinkTable.Similar>, m: Id)
    requires Gone(s, m) && LinkTable.IsSimilar(s.rows, x, now, similar)
    ensures Gone(s.(links := LinkTable.Linked(s.links, x, similar, |similar|)), m)
  {
    forall a, b | (a, b) in LinkTable.Linked(s.links, x, similar, |similar|) ensures a != m && b != m {
      LinkTable.LinkedPairs(s.links, x, similar, |similar|, (a, b));
      if (a, b) in s.links { assert !LinkTable.NamedInLinks(s.links, m); }
    }
  }

  lemma GoneAfterForget(s: State, a: AgentId, x: Id, m: Id)
    requires Gone(s, m)
    ensures Gone(Forget(s, a, x), m)
  {
    if MayForget(s, a, x) {
      IssuedConcat(s.history, [HistoryEntry(a, Forgotten, x, None)]);
      EntityIndex.UnlistedLists(s.index, x);
      var links := LinkTable.Unlinked(s.links, x);
      forall y, z | (y, z) in links ensures y != m && z != m { assert (y, z) in s.links; }
    }
  }

  lemma GoneAfterStep(s: State, e: Event, threshold: int, m: Id)
    requires Valid(s) && Gone(s, m) && Enabled(s, e, threshold)
    ensures Gone(Step(s, e, threshold), m)
  {
    match e
    case DoRemember(b) =>
      if Remembering.IsActive(s, b.agent) {
        Remembering.StoredRows(s.rows, b, |b.items|);
        IssuedConcat(s.history, Remembering.Trail(s.rows, b, |b.items|));
        GoneAfterInsert(s, Remembering.Remember(s, b), m);
      }
    case DoReflect(w, _) =>
      if Reflection.Commits(w) {
        AppliedRows(s.rows, w, |w.reply|);
        IssuedConcat(s.history, Reflection.Trail(w, |w.reply|));
        forall id | id in Reflection.WriteReflections(s, w).rows && id !in s.rows ensures id !in Issued(s.history) {
          InsertedAreDrafts(w, |w.reply|, id);
        }
        GoneAfterInsert(s, Reflection.WriteReflections(s, w), m);
      }
    case DoGraph(ids) => GoneAfterGraph(s, ids, m);
    case DoLink(x, now, similar) => GoneAfterLink(s, x, now, similar, m);
    case DoForget(a, x) => GoneAfterForget(s, a, x, m);
    case DoPurge(now) => GoneAfterInsert(s, Purge(s, now), m);
    case DoArchive(ids) => GoneAfterInsert(s, Archive(s, ids), m);
  }

  lemma {:induction false} GoneForGood(s: State, es: seq<Event>, threshold: int, m: Id)
    requires Valid(s) && Gone(s, m) && IsRun(s, es, threshold)
    ensures Gone(Run(s, es, threshold), m)
    decreases |es|
  {
    if es == [] {
    } else {
      StepKeepsValid(s, es[0], threshold);
      GoneAfterStep(s, es[0], threshold, m);
      GoneForGood(Step(s, es[0], threshold), es[1..], threshold, m);
    }
  }

  /** After forget(m), no row, index entry or link names m in any later state. */
  lemma ForgottenForGood(s: State, a: AgentId, m: Id, es: seq<Event>, threshold: int)
    requires Valid(s) && MayForget(s, a, m) && IsRun(Forget(s, a, m), es, threshold)
    ensures Gone(Run(Forget(s, a, m), es, threshold), m)
  {
    ForgetKeeps(s, a, m);
    ForgetRemoves(s, a, m);
    GoneForGood(Forget(s, a, m), es, threshold, m);
  }

  // ---- What a step leaves alone ----

  /** A memory is removed only at the request of its own active agent; all else but its traces stays. */
  lemma ForgetFrame(s: State, a: AgentId, m: Id)
    ensures var t := Forget(s, a, m);
      && t.agents == s.agents && t.clock == s.clock
      && (forall id :: id in t.rows <==> id in s.rows && !(id == m && MayForget(s, a, m)))
      && (forall id :: id in t.rows ==> t.rows[id] == s.rows[id])
      && (m in s.rows ==> (m !in t.rows <==> s.rows[m].agent == a && a in s.agents && s.agents[a].active))
    ensures var t := Forget(s, a, m);
      t.history == s.history + if MayForget(s, a, m) then [HistoryEntry(a, Forgotten, m, None)] else []
  {
  }

  /** Of the other traces, only those that name the memory go. */
  lemma ForgetKeepsTraces(s: State, a: AgentId, m: Id)
    requires LinkTable.Symmetric(s.links)
    ensures var t := Forget(s, a, m);
      && (forall key, id :: id != m ==>
            (EntityIndex.Listed(t.index, key, id) <==> EntityIndex.Listed(s.index, key, id)))
      && (forall x, y :: x != m && y != m ==> ((x, y) in t.links <==> (x, y) in s.links))
      && (forall p :: p in t.links ==> t.links[p] == s.links[p])
  {
    EntityIndex.UnlistedLists(s.index, m);
    LinkTable.UnlinkedKeeps(s.links, m);
  }

  /** Purging and archiving touch nothing but rows; a purge keeps every row that is not short-term and expired. */
  lemma MaintenanceFrame(s: State, now: Time, ids: set<Id>)
    ensures var t := Purge(s, now);
      && t.rows.Keys <= s.rows.Keys && (forall id :: id in t.rows ==> t.rows[id] == s.rows[id])
      && (forall id :: id in s.rows && id !in t.rows <==>
            && id in s.rows && s.rows[id].kind == ShortTerm
            && s.rows[id].expiresAt.Some? && s.rows[id].expiresAt.value < now)
    ensures var t := Archive(s, ids);
      && t.rows.Keys == s.rows.Keys
      && (forall id :: id in s.rows ==> t.rows[id] == s.rows[id].(active := s.rows[id].active && id !in ids))
  {
  }
}
