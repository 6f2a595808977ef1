/**
 * The recall endpoint (src/qortia/recall.py): the WHERE clauses of its searches, the stages put
 * together, and the guarantee that without a point in time no row comes back whose expiry or end
 * of validity has passed.
 */
module RecallPipeline {
  import opened Wrappers
  import opened Results
  import Collections
  import Ranking
  import RankFusion
  import Mmr
  import Cosine
  import EntityTraversal
  import LinkExpansion
  import Rerank
  import Budget
  import Text

  // ---- Which rows the searches may return ----

  type Time = int

  /** The validity columns of a stored memory; org memories never expire. */
  datatype Row = Row(expiresAt: Option<Time>, validFrom: Time, validUntil: Option<Time>)

  datatype Db = Db(memories: map<Id, Row>, org: map<Id, Row>)

  datatype Search = KeywordPrivate | VectorPrivate | OrgSearch | KnowledgeSearch | TypeRouted

  predicate Unexpired(row: Row, now: Time) {
    row.expiresAt == None || row.expiresAt.value > now
  }

  /** A row is valid before its valid_until only. */
  predicate StillValid(row: Row, at: Time) {
    row.validUntil == None || row.validUntil.value > at
  }

  /** The temporal clause shared by the two hybrid searches of private memories. */
  predicate TemporalClause(row: Row, asOf: Option<Time>) {
    if asOf == None then row.validUntil == None
    else row.validFrom <= asOf.value && StillValid(row, asOf.value)
  }

  predicate Where(search: Search, row: Row, now: Time, asOf: Option<Time>) {
    match search
    case KeywordPrivate => Unexpired(row, now) && TemporalClause(row, asOf)
    case VectorPrivate => Unexpired(row, now) && StillValid(row, now) && TemporalClause(row, asOf)
    case OrgSearch => StillValid(row, now)
    case KnowledgeSearch => true
    case TypeRouted => Unexpired(row, now) && StillValid(row, now)
  }

  function ScopeOf(search: Search): Scope {
    match search
    case OrgSearch => Org
    case KnowledgeSearch => Knowledge
    case _ => Private
  }

  /** The rows of `scope` that recall may show: knowledge chunks carry no validity. */
  ghost predicate Backed(db: Db, r: RecallResult, ok: Row -> bool) {
    match r.scope
    case Private => r.id in db.memories && ok(db.memories[r.id])
    case Org => r.id in db.org && ok(db.org[r.id])
    case Knowledge => true
  }

  ghost predicate AllBacked(db: Db, results: seq<RecallResult>, ok: Row -> bool) {
    forall r :: r in results ==> Backed(db, r, ok)
  }

  function WhereOf(search: Search, now: Time, asOf: Option<Time>): Row -> bool {
    (row: Row) => Where(search, row, now, asOf)
  }

  /** A search returns some of the rows that satisfy its clauses. */
  ghost predicate AnswersSearch(db: Db, search: Search, now: Time, asOf: Option<Time>, results: seq<RecallResult>) {
    && (forall r :: r in results ==> r.scope == ScopeOf(search) && r.linkedVia == None)
    && AllBacked(db, results, WhereOf(search, now, asOf))
  }

  /** At query time neither the expiry nor the end of validity has passed. */
  function CurrentAt(now: Time): Row -> bool {
    (row: Row) => Unexpired(row, now) && StillValid(row, now)
  }

  /** Valid at a point in time. */
  function ValidAt(t: Time): Row -> bool {
    (row: Row) => row.validFrom <= t && StillValid(row, t)
  }

  /** The rows the link expansion looks up. */
  predicate ExpansionClause(row: Row, now: Time) {
    Unexpired(row, now) && StillValid(row, now)
  }

  /** Org memories have no expiry. */
  ghost predicate OrgNeverExpires(db: Db) {
    forall id :: id in db.org ==> db.org[id].expiresAt == None
  }

  /** Without a point in time, every search returns current rows only. */
  lemma SearchIsCurrent(db: Db, search: Search, now: Time, results: seq<RecallResult>)
    requires OrgNeverExpires(db) && AnswersSearch(db, search, now, None, results)
    ensures AllBacked(db, results, CurrentAt(now))
  {
    forall r | r in results ensures Backed(db, r, CurrentAt(now)) {
      assert Backed(db, r, WhereOf(search, now, None));
    }
  }

  /**
   * With a point in time, what a search returns was valid then, exactly for the private hybrid
   * searches; the keyword search may then return rows ended since. The org search, the type-routed
   * ones and the link expansion do not look at the point in time: a row that became valid later passes.
   */
  lemma PointInTimeClauses(search: Search, now: Time, t: Time)
    requires t < now
    ensures (forall row :: Where(search, row, now, Some(t)) ==> ValidAt(t)(row))
            <==> search in {KeywordPrivate, VectorPrivate}
    ensures (forall row :: Where(search, row, now, Some(t)) ==> StillValid(row, now))
            <==> search !in {KeywordPrivate, KnowledgeSearch}
    ensures exists row :: ExpansionClause(row, now) && !ValidAt(t)(row)
  {
    var later := Row(None, t + 1, None);
    var since := Row(None, t, Some(now));
    assert ExpansionClause(later, now) && !ValidAt(t)(later);
    assert search in {OrgSearch, KnowledgeSearch, TypeRouted} ==>
             Where(search, later, now, Some(t)) && later.validFrom > t;
    assert search in {KeywordPrivate, KnowledgeSearch} ==>
             Where(search, since, now, Some(t)) && !StillValid(since, now);
  }

  /** The private results among these are backed by such rows. */
  ghost predicate PrivateBacked(db: Db, results: seq<RecallResult>, ok: Row -> bool) {
    forall r :: r in results && r.scope == Private ==> Backed(db, r, ok)
  }

  /** The private results that no link expansion brought in. */
  ghost predicate FoundBacked(db: Db, results: seq<RecallResult>, ok: Row -> bool) {
    forall r :: r in results && r.scope == Private && r.linkedVia == None ==> Backed(db, r, ok)
  }

  // ---- The hybrid pipeline ----

  /** One search of the hybrid pipeline: which one, and its results; None when it raised an exception. */
  datatype Answer = Answer(search: Search, results: Option<seq<RecallResult>>)

  /** The results of the searches that succeeded, one search after the other. */
  function AllResults(answers: seq<Answer>): seq<RecallResult> {
    if answers == [] then []
    else
      var last := answers[|answers| - 1];
      AllResults(answers[..|answers| - 1]) + if last.results.Some? then last.results.value else []
  }

  /** The knowledge chunks, or the memories, among the results, in order and with their repeats. */
  function Chunks(results: seq<RecallResult>, knowledge: bool): seq<RecallResult> {
    if results == [] then []
    else
      var last := results[|results| - 1];
      Chunks(results[..|results| - 1], knowledge) + if (last.scope == Knowledge) == knowledge then [last] else []
  }

  lemma {:induction false} ChunksConcat(a: seq<RecallResult>, b: seq<RecallResult>, knowledge: bool)
    ensures Chunks(a + b, knowledge) == Chunks(a, knowledge) + Chunks(b, knowledge)
  {
    if b == [] {
      assert a + b == a;
    } else {
      assert (a + b)[..|a + b| - 1] == a + b[..|b| - 1];
      ChunksConcat(a, b[..|b| - 1], knowledge);
    }
  }

  lemma {:induction false} ChunksMembers(results: seq<RecallResult>, knowledge: bool, r: RecallResult)
    ensures r in Chunks(results, knowledge) <==> r in results && (r.scope == Knowledge) == knowledge
  {
    if results == [] {
    } else {
      assert results == results[..|results| - 1] + [results[|results| - 1]];
      ChunksMembers(results[..|results| - 1], knowledge, r);
    }
  }

  lemma {:induction false} AllResultsMembers(answers: seq<Answer>, r: RecallResult)
    ensures r in AllResults(answers) <==> InAnswers(answers, r)
  {
    if answers == [] {
    } else {
      var n := |answers| - 1;
      AllResultsMembers(answers[..n], r);
      InAnswersStep(answers, n, r);
      assert answers[..n + 1] == answers;
    }
  }

  /** The results of all searches that succeeded, knowledge apart from memories. */
  method Partition(answers: seq<Answer>) returns (memory: seq<RecallResult>, knowledge: seq<RecallResult>)
    ensures memory == Chunks(AllResults(answers), false)
    ensures knowledge == Chunks(AllResults(answers), true)
  {
    memory, knowledge := [], [];
    for i := 0 to |answers|
      invariant memory == Chunks(AllResults(answers[..i]), false)
      invariant knowledge == Chunks(AllResults(answers[..i]), true)
    {
      assert answers[..i + 1][..i] == answers[..i];
      if answers[i].results.Some? {
        ChunksConcat(AllResults(answers[..i]), answers[i].results.value, false);
        ChunksConcat(AllResults(answers[..i]), answers[i].results.value, true);
        var m, k := Split(answers[i].results.value);
        memory, knowledge := memory + m, knowledge + k;
      } else {
        assert AllResults(answers[..i]) + [] == AllResults(answers[..i]);
      }
    }
    assert answers[..|answers|] == answers;
  }

  method Split(results: seq<RecallResult>) returns (memory: seq<RecallResult>, knowledge: seq<RecallResult>)
    ensures memory == Chunks(results, false) && knowledge == Chunks(results, true)
  {
    memory, knowledge := [], [];
    for j := 0 to |results|
      invariant memory == Chunks(results[..j], false) && knowledge == Chunks(results[..j], true)
    {
      assert results[..j + 1][..j] == results[..j];
      if results[j].scope == Knowledge {
        knowledge := knowledge + [results[j]];
      } else {
        memory := memory + [results[j]];
      }
    }
    assert results[..|results|] == results;
  }

  ghost predicate InAnswer(a: Answer, r: RecallResult) {
    a.results.Some? && r in a.results.value
  }

  ghost predicate InAnswers(answers: seq<Answer>, r: RecallResult) {
    exists i :: 0 <= i < |answers| && InAnswer(answers[i], r)
  }

  lemma InAnswersStep(answers: seq<Answer>, i: nat, r: RecallResult)
    requires i < |answers|
    ensures InAnswers(answers[..i + 1], r) <==> InAnswers(answers[..i], r) || InAnswer(answers[i], r)
  {
    var before, after := answers[..i], answers[..i + 1];
    if InAnswers(before, r) {
      var j :| 0 <= j < |before| && InAnswer(before[j], r);
      assert InAnswer(after[j], r);
    }
    if InAnswer(answers[i], r) { assert InAnswer(after[i], r); }
    if InAnswers(after, r) {
      var j :| 0 <= j < |after| && InAnswer(after[j], r);
      if j < i { assert InAnswer(before[j], r); }
    }
  }

  /** What the request brings along besides the search answers. */
  datatype Request = Request(
    queryEmbedding: seq<real>,
    entityLinks: set<Id>,
    entitySummary: Option<string>,
    entityTable: EntityTraversal.Table,
    tenant: nat,
    seedIds: seq<EntityTraversal.EntityId>,
    rrfK: nat,
    query: string,
    lower: string -> string,
    linkRows: Option<seq<LinkExpansion.Link>>)

  const BFS_DEPTH := 2
  const BFS_DECAY := 0.5
  const KNOWLEDGE_MIN_SCORE := 0.30
  const KNOWLEDGE_LIMIT := 4

  /** The memories linked to the given entities. */
  function MemoriesOf(t: EntityTraversal.Table, entities: set<EntityTraversal.EntityId>): set<Id> {
    set e, m | e in entities && e in t && m in t[e].linked :: m
  }

  /** The entities that are one or two hops away from those named in the query. */
  ghost function Nearby(request: Request): set<EntityTraversal.EntityId> {
    var seeds := Collections.ToSet(request.seedIds);
    EntityTraversal.Ball(request.entityTable, request.tenant, seeds, BFS_DEPTH) - seeds
  }

  /**
   * The links the fusion uses: those of the entities in the query and, when the query is embedded
   * too, of the entities nearby; some of the latter may be missing when a round hits the row limit.
   */
  ghost predicate IsLinkSet(request: Request, neighbours: set<EntityTraversal.EntityId> -> seq<EntityTraversal.Row>,
                            links: set<Id>) {
    var seeds := Collections.ToSet(request.seedIds);
    var ball := EntityTraversal.Balls(request.entityTable, request.tenant, seeds);
    var walked := request.entityLinks != {} && request.queryEmbedding != [];
    && request.entityLinks <= links
    && (!walked ==> links == request.entityLinks)
    && links <= request.entityLinks + MemoriesOf(request.entityTable, Nearby(request))
    && (walked && EntityTraversal.Untruncated(ball, neighbours, BFS_DEPTH) ==>
          links == request.entityLinks + MemoriesOf(request.entityTable, Nearby(request)))
  }

  /** The memories the walk boosts are those linked to the entities it discovered. */
  lemma BoostedAreLinked(t: EntityTraversal.Table, boost: (EntityTraversal.EntityId, nat) -> real,
                         boosts: map<Id, real>, found: map<EntityTraversal.EntityId, nat>)
    requires EntityTraversal.Summarises(t, boost, boosts, found)
    ensures boosts.Keys == MemoriesOf(t, found.Keys)
  {
    forall m | m in boosts ensures m in MemoriesOf(t, found.Keys) {
      assert EntityTraversal.Attained(t, boost, found, m, boosts[m]);
    }
  }

  lemma WalkIsNearby(request: Request, found: map<EntityTraversal.EntityId, nat>)
    requires EntityTraversal.Inside(request.entityTable,
               EntityTraversal.Balls(request.entityTable, request.tenant, Collections.ToSet(request.seedIds)),
               found, BFS_DEPTH)
    ensures found.Keys <= Nearby(request)
  {
    var seeds := Collections.ToSet(request.seedIds);
    EntityTraversal.BallsGrow(request.entityTable, request.tenant, seeds);
    InsideReaches(request.entityTable, EntityTraversal.Balls(request.entityTable, request.tenant, seeds), found,
                  BFS_DEPTH);
  }

  lemma InsideReaches(t: EntityTraversal.Table, ball: nat -> set<EntityTraversal.EntityId>,
                      found: map<EntityTraversal.EntityId, nat>, d: nat)
    requires EntityTraversal.Inside(t, ball, found, d) && forall c, e :: 0 <= c <= e ==> ball(c) <= ball(e)
    ensures found.Keys <= ball(d) - ball(0)
  {
    forall e | e in found ensures e in ball(d) { assert ball(found[e]) <= ball(d); }
  }

  lemma WalkedLinkSet(request: Request, neighbours: set<EntityTraversal.EntityId> -> seq<EntityTraversal.Row>,
                      boosts: map<Id, real>, found: map<EntityTraversal.EntityId, nat>)
    requires request.entityLinks != {} && request.queryEmbedding != []
    requires EntityTraversal.Summarises(request.entityTable,
               EntityTraversal.Booster(EntityTraversal.BaseBoosts(request.entityTable), BFS_DECAY), boosts, found)
    requires var ball :=
        EntityTraversal.Balls(request.entityTable, request.tenant, Collections.ToSet(request.seedIds));
      && EntityTraversal.Inside(request.entityTable, ball, found, BFS_DEPTH)
      && (EntityTraversal.Untruncated(ball, neighbours, BFS_DEPTH) ==> EntityTraversal.Exact(ball, found, BFS_DEPTH))
    ensures IsLinkSet(request, neighbours, request.entityLinks + boosts.Keys)
  {
    BoostedAreLinked(request.entityTable,
                     EntityTraversal.Booster(EntityTraversal.BaseBoosts(request.entityTable), BFS_DECAY),
                     boosts, found);
    WalkIsNearby(request, found);
  }

  /** Fusion, and a second fusion when the walk over the entity table reaches anything. */
  method FuseWithGraph(memory: seq<RecallResult>, request: Request, imp: RecallResult -> real,
                       neighbours: set<EntityTraversal.EntityId> -> seq<EntityTraversal.Row>)
    returns (fused: seq<RecallResult>)
    requires EntityTraversal.IsNeighbourQuery(request.entityTable, request.tenant, neighbours)
    ensures exists links :: IsLinkSet(request, neighbours, links)
                         && RankFusion.IsFusion(memory, RankFusion.ScoreOf(memory, links, request.rrfK, imp), fused)
  {
    ghost var links := request.entityLinks;
    fused := RankFusion.RrfFuse(memory, request.entityLinks, request.rrfK, imp);
    if request.entityLinks != {} && request.queryEmbedding != [] {
      var boosts;
      ghost var found;
      boosts, found := EntityTraversal.BfsEntityTraversal(request.entityTable, request.tenant, request.seedIds,
                                                          BFS_DEPTH, BFS_DECAY, neighbours);
      WalkedLinkSet(request, neighbours, boosts, found);
      links := request.entityLinks + boosts.Keys;
      if boosts != map[] {
        fused := RankFusion.RrfFuse(memory, request.entityLinks + boosts.Keys, request.rrfK, imp);
      } else {
        assert links == request.entityLinks;
      }
    }
    assert IsLinkSet(request, neighbours, links);
  }

  /** The words of the query that count: those longer than two characters, in lower case. */
  function Tokens(query: string, lower: string -> string): set<string> {
    set t | t in Text.Words(query) && |t| > 2 :: lower(t)
  }

  /** Python's `in` on strings. */
  predicate OccursIn(t: string, content: string) {
    exists i :: 0 <= i <= |content| && OccursAt(t, content, i)
  }

  predicate OccursAt(t: string, content: string, i: nat) {
    i + |t| <= |content| && content[i..i + |t|] == t
  }

  function Matched(tokens: set<string>, content: string): set<string> {
    set t | t in tokens && OccursIn(t, content)
  }

  /** The share of the query's tokens that occur in the content. */
  function KeywordBoost(query: string, lower: string -> string, content: string): real {
    var tokens := Tokens(query, lower);
    if tokens == {} then 0.0 else |Matched(tokens, lower(content))| as real / |tokens| as real
  }

  function BoostBy(request: Request): string -> real {
    (content: string) => KeywordBoost(request.query, request.lower, content)
  }

  function Rescored(c: RecallResult, keywordBoost: string -> real): RecallResult {
    c.(score := c.score * (1.0 + keywordBoost(c.content)))
  }

  function RescoreAll(candidates: seq<RecallResult>, keywordBoost: string -> real): seq<RecallResult> {
    seq(|candidates|, i requires 0 <= i < |candidates| => Rescored(candidates[i], keywordBoost))
  }

  const KNOWLEDGE_WEIGHTS :=
    Mmr.Weights(Mmr.DEFAULT_LAMBDA, Mmr.DEFAULT_DEDUP_THRESHOLD, KNOWLEDGE_MIN_SCORE, Mmr.DEFAULT_K)

  /** Diversified when the query has an embedding; otherwise the first four candidates. */
  ghost predicate IsChoice(candidates: seq<RecallResult>, request: Request, sqrt: real -> real,
                           chosen: seq<RecallResult>) {
    if request.queryEmbedding == [] || candidates == [] then
      chosen == if |candidates| <= KNOWLEDGE_LIMIT then candidates else candidates[..KNOWLEDGE_LIMIT]
    else
      Mmr.IsSelection(Mmr.Rank(Mmr.CosineSimilarity(sqrt), request.queryEmbedding, KNOWLEDGE_WEIGHTS),
                      Mmr.Eligible(RescoreAll(candidates, BoostBy(request)), KNOWLEDGE_MIN_SCORE),
                      KNOWLEDGE_LIMIT, chosen)
  }

  method ChooseKnowledge(candidates: seq<RecallResult>, request: Request, sqrt: real -> real)
    returns (chosen: seq<RecallResult>)
    ensures IsChoice(candidates, request, sqrt, chosen)
  {
    if request.queryEmbedding == [] || candidates == [] {
      return if |candidates| <= KNOWLEDGE_LIMIT then candidates else candidates[..KNOWLEDGE_LIMIT];
    }
    chosen := Mmr.Mmr(sqrt, request.queryEmbedding, RescoreAll(candidates, BoostBy(request)), KNOWLEDGE_WEIGHTS);
  }

  /** A selected chunk is an eligible one. */
  lemma SelectedAreEligible(rank: Mmr.Ranking, eligible: seq<RecallResult>, k: int, chosen: seq<RecallResult>)
    requires Mmr.IsSelection(rank, eligible, k, chosen)
    ensures |chosen| <= (if k < 0 then 0 else k) && forall c :: c in chosen ==> c in eligible
  {
    var picks :| Mmr.IsMmr(rank, eligible, k, picks) && chosen == Mmr.Picked(eligible, picks);
    forall c | c in chosen ensures c in eligible {
      var i :| 0 <= i < |chosen| && chosen[i] == c;
      assert picks[i] in picks && c == eligible[picks[i]];
    }
  }

  /** At most four chunks are chosen, each a candidate up to its score. */
  lemma ChoiceIsSmall(candidates: seq<RecallResult>, request: Request, sqrt: real -> real, chosen: seq<RecallResult>)
    requires IsChoice(candidates, request, sqrt, chosen)
    ensures |chosen| <= KNOWLEDGE_LIMIT
    ensures forall c :: c in chosen ==> exists d :: d in candidates && c == d.(score := c.score)
  {
    if request.queryEmbedding != [] && candidates != [] {
      var rescored := RescoreAll(candidates, BoostBy(request));
      SelectedAreEligible(Mmr.Rank(Mmr.CosineSimilarity(sqrt), request.queryEmbedding, KNOWLEDGE_WEIGHTS),
                          Mmr.Eligible(rescored, KNOWLEDGE_MIN_SCORE), KNOWLEDGE_LIMIT, chosen);
      forall c | c in chosen ensures exists d :: d in candidates && c == d.(score := c.score) {
        Mmr.EligibleIsFilter(rescored, KNOWLEDGE_MIN_SCORE, c);
        var j :| 0 <= j < |rescored| && rescored[j] == c;
        assert candidates[j] in candidates && c == candidates[j].(score := c.score);
      }
    } else {
      forall c | c in chosen ensures exists d :: d in candidates && c == d.(score := c.score) {
        assert c in candidates && c == c.(score := c.score);
      }
    }
  }

  /** What the stages of the pipeline hand on. */
  datatype Stages = Stages(
    memory: seq<RecallResult>,
    links: set<Id>,
    fused: seq<RecallResult>,
    linked: seq<RecallResult>,
    candidates: seq<RecallResult>,
    knowledge: seq<RecallResult>)

  /**
   * The hybrid pipeline: the memories fused, those linked to the top five of them, and the chosen
   * chunks; the first result carries the entity summary. The expansion may also add nothing when one
   * of its queries fails.
   */
  ghost predicate IsHybrid(answers: seq<Answer>, request: Request, imp: RecallResult -> real, sqrt: real -> real,
                           neighbours: set<EntityTraversal.EntityId> -> seq<EntityTraversal.Row>,
                           fetch: seq<Id> -> Option<seq<RecallResult>>, live: Id -> bool,
                           st: Stages, results: seq<RecallResult>) {
    && st.memory == Chunks(AllResults(answers), false) && st.candidates == Chunks(AllResults(answers), true)
    && IsLinkSet(request, neighbours, st.links)
    && RankFusion.IsFusion(st.memory, RankFusion.ScoreOf(st.memory, st.links, request.rrfK, imp), st.fused)
    && (st.linked == [] || Expands(request, live, st))
    && (st.fused != [] && request.queryEmbedding != [] && request.linkRows.Some? && (forall ids :: fetch(ids).Some?)
        ==> Expands(request, live, st))
    && (request.queryEmbedding == [] ==> st.linked == [])
    && IsChoice(st.candidates, request, sqrt, st.knowledge)
    && results == Summarised(st.fused + st.linked + st.knowledge, request.entitySummary)
  }

  ghost predicate Expands(request: Request, live: Id -> bool, st: Stages) {
    && request.linkRows.Some?
    && LinkExpansion.IsExpansion(st.fused, request.linkRows.value, LinkExpansion.EXPAND_LIMIT_PER_RESULT, live,
                                 st.linked)
  }

  method HybridRecall(answers: seq<Answer>, request: Request, imp: RecallResult -> real, sqrt: real -> real,
                      neighbours: set<EntityTraversal.EntityId> -> seq<EntityTraversal.Row>,
                      fetch: seq<Id> -> Option<seq<RecallResult>>, ghost live: Id -> bool)
    returns (results: seq<RecallResult>)
    requires EntityTraversal.IsNeighbourQuery(request.entityTable, request.tenant, neighbours)
    requires forall ids :: fetch(ids).Some? ==>
      LinkExpansion.AnswersMemories(live, Collections.ToSet(ids), fetch(ids).value)
    ensures exists st :: IsHybrid(answers, request, imp, sqrt, neighbours, fetch, live, st, results)
  {
    var memory, candidates := Partition(answers);
    var fused := FuseWithGraph(memory, request, imp, neighbours);
    ghost var links :| IsLinkSet(request, neighbours, links)
                       && RankFusion.IsFusion(memory, RankFusion.ScoreOf(memory, links, request.rrfK, imp), fused);
    var chosen := ChooseKnowledge(candidates, request, sqrt);
    var expanded := fused;
    if fused != [] && request.queryEmbedding != [] {
      expanded := LinkExpansion.ExpandWithLinks(fused, request.linkRows, fetch, live);
    }
    results := Summarised(expanded + chosen, request.entitySummary);
    ghost var linked := expanded[|fused|..];
    PrefixSplit(fused, expanded);
    MakesHybrid(answers, request, imp, sqrt, neighbours, fetch, live,
                Stages(memory, links, fused, linked, candidates, chosen), results);
  }

  /** Names the stages that the method went through. */
  lemma MakesHybrid(answers: seq<Answer>, request: Request, imp: RecallResult -> real, sqrt: real -> real,
                    neighbours: set<EntityTraversal.EntityId> -> seq<EntityTraversal.Row>,
                    fetch: seq<Id> -> Option<seq<RecallResult>>, live: Id -> bool,
                    st: Stages, results: seq<RecallResult>)
    requires IsHybrid(answers, request, imp, sqrt, neighbours, fetch, live, st, results)
    ensures exists found :: IsHybrid(answers, request, imp, sqrt, neighbours, fetch, live, found, results)
  {
  }

  lemma PrefixSplit<T>(a: seq<T>, b: seq<T>)
    requires a <= b
    ensures b == a + b[|a|..]
  {
  }

  /** The entity summary goes onto the first result. */
  function Summarised(results: seq<RecallResult>, summary: Option<string>): seq<RecallResult> {
    if results == [] || summary == None || summary.value == "" then results
    else [results[0].(entitySummary := summary)] + results[1..]
  }

  function Reranked(results: seq<RecallResult>, rerank: bool, order: Option<seq<int>>): seq<RecallResult> {
    if rerank && |results| >= 2 then Rerank.LlmRerank(results, order) else results
  }

  /** The response is a prefix of the reranked results, cut where the character budget says. */
  ghost predicate IsFinish(results: seq<RecallResult>, rerank: bool, order: Option<seq<int>>, budget: int,
                           response: seq<RecallResult>) {
    var ranked := Reranked(results, rerank, order);
    if budget <= 0 then response == ranked
    else response <= ranked && Budget.IsRecallCut(Budget.Lengths(ranked), budget, |response|)
  }

  /** What happens to the results of either path: optional rerank, then the character budget. */
  method Finish(results: seq<RecallResult>, rerank: bool, order: Option<seq<int>>, maxChars: Option<int>,
                serverDefault: int)
    returns (response: seq<RecallResult>)
    ensures IsFinish(results, rerank, order, Budget.ResolveMaxChars(maxChars, serverDefault), response)
  {
    response := results;
    if rerank && |results| >= 2 { response := Rerank.LlmRerank(results, order); }
    var effective := Budget.ResolveMaxChars(maxChars, serverDefault);
    if effective > 0 { response := Budget.ApplyCharBudget(response, effective); }
  }

  /** The last stages add nothing. */
  lemma FinishAddsNothing(results: seq<RecallResult>, rerank: bool, order: Option<seq<int>>, budget: int,
                          response: seq<RecallResult>, r: RecallResult)
    requires IsFinish(results, rerank, order, budget, response) && r in response
    ensures r in results
  {
    Rerank.RerankKeepsIds(results, order);
    assert r in Reranked(results, rerank, order);
  }

  /** The live memories of the expansion are those unexpired and valid now. */
  function Live(db: Db, now: Time): Id -> bool {
    (id: Id) => id in db.memories && ExpansionClause(db.memories[id], now)
  }

  /**
   * The endpoint. Without a point in time every private or org result in the response comes from a
   * row whose expiry and end of validity have not passed. With one, on the hybrid path, every private
   * result that the link expansion did not bring in comes from a row valid at that time; without an
   * embedding of the query it brings in none.
   */
  method Recall(ghost db: Db, ghost now: Time, ghost asOf: Option<Time>,
                routed: Option<seq<RecallResult>>, answers: seq<Answer>, request: Request,
                log1p: nat -> real, sqrt: real -> real,
                neighbours: set<EntityTraversal.EntityId> -> seq<EntityTraversal.Row>,
                fetch: seq<Id> -> Option<seq<RecallResult>>,
                rerank: bool, order: Option<seq<int>>, maxChars: Option<int>, serverDefault: int)
    returns (response: seq<RecallResult>)
    requires OrgNeverExpires(db)
    requires routed.Some? ==> AnswersSearch(db, TypeRouted, now, asOf, routed.value)
    requires AnswersAll(db, now, asOf, answers) && forall i :: 0 <= i < |answers| ==> !answers[i].search.TypeRouted?
    requires EntityTraversal.IsNeighbourQuery(request.entityTable, request.tenant, neighbours)
    requires forall ids :: fetch(ids).Some? ==>
      LinkExpansion.AnswersMemories(Live(db, now), Collections.ToSet(ids), fetch(ids).value)
    ensures exists found ::
              && IsFinish(found, rerank, order, Budget.ResolveMaxChars(maxChars, serverDefault), response)
              && (if routed.Some? then Ranking.IsRanking(routed.value, RankFusion.Importances(log1p), found)
                  else exists st :: IsHybrid(answers, request, RankFusion.Importances(log1p), sqrt, neighbours, fetch,
                                             Live(db, now), st, found))
    ensures asOf == None ==> AllBacked(db, response, CurrentAt(now))
    ensures asOf.Some? && routed == None ==> FoundBacked(db, response, ValidAt(asOf.value))
    ensures asOf.Some? && routed == None && request.queryEmbedding == [] ==>
              PrivateBacked(db, response, ValidAt(asOf.value))
  {
    var found;
    var imp := RankFusion.Importances(log1p);
    if routed.Some? {
      found := Ranking.SortDescending(routed.value, imp);
      Ranking.SortRanks(routed.value, imp);
      if asOf == None { RankingIsCurrent(db, now, routed.value, imp, found); }
    } else {
      found := HybridRecall(answers, request, imp, sqrt, neighbours, fetch, Live(db, now));
      ghost var st :| IsHybrid(answers, request, imp, sqrt, neighbours, fetch, Live(db, now), st, found);
      if asOf == None {
        HybridIsCurrent(db, now, answers, request, imp, sqrt, neighbours, fetch, st, found);
      } else {
        HybridIsAsOf(db, now, asOf.value, answers, request, imp, sqrt, neighbours, fetch, st, found);
      }
    }
    response := Finish(found, rerank, order, maxChars, serverDefault);
    forall r | r in response ensures r in found {
      FinishAddsNothing(found, rerank, order, Budget.ResolveMaxChars(maxChars, serverDefault), response, r);
    }
  }

  /** Every search that succeeded returned rows that satisfy its clauses. */
  ghost predicate AnswersAll(db: Db, now: Time, asOf: Option<Time>, answers: seq<Answer>) {
    forall i :: 0 <= i < |answers| && answers[i].results.Some? ==>
      AnswersSearch(db, answers[i].search, now, asOf, answers[i].results.value)
  }

  lemma RankingIsCurrent(db: Db, now: Time, routed: seq<RecallResult>, imp: RecallResult -> real,
                         out: seq<RecallResult>)
    requires OrgNeverExpires(db) && AnswersSearch(db, TypeRouted, now, None, routed)
    requires Ranking.IsRanking(routed, imp, out)
    ensures AllBacked(db, out, CurrentAt(now))
  {
    SearchIsCurrent(db, TypeRouted, now, routed);
    forall r | r in out ensures Backed(db, r, CurrentAt(now)) { Ranking.MultisetMember(out, routed, r); }
  }

  lemma FusedAreFound(answers: seq<Answer>, score: Id -> real, fused: seq<RecallResult>, r: RecallResult)
    requires RankFusion.IsFusion(Chunks(AllResults(answers), false), score, fused) && r in fused
    ensures InAnswers(answers, r) && r.scope != Knowledge
  {
    RankFusion.FusionListsEachOnce(Chunks(AllResults(answers), false), score, fused);
    ChunksMembers(AllResults(answers), false, r);
    AllResultsMembers(answers, r);
  }

  /** The chosen chunks are knowledge. */
  lemma ChosenAreKnowledge(answers: seq<Answer>, request: Request, sqrt: real -> real, chosen: seq<RecallResult>,
                           c: RecallResult)
    requires IsChoice(Chunks(AllResults(answers), true), request, sqrt, chosen) && c in chosen
    ensures c.scope == Knowledge
  {
    ChoiceIsSmall(Chunks(AllResults(answers), true), request, sqrt, chosen);
    var d :| d in Chunks(AllResults(answers), true) && c == d.(score := c.score);
    ChunksMembers(AllResults(answers), true, d);
  }

  lemma ExpandedAreCurrent(db: Db, now: Time, request: Request, st: Stages, r: RecallResult)
    requires Expands(request, Live(db, now), st) && r in st.linked
    ensures Backed(db, r, CurrentAt(now))
  {
    var i :| 0 <= i < |st.linked| && st.linked[i] == r;
    assert Ids(st.linked)[i] == r.id && r.id in Ids(st.linked);
    assert Live(db, now)(r.id);
  }

  /**
   * What holds of every result found and every memory linked, and of all chunks, holds of every result
   * of the pipeline: its stages invent nothing, and the summary shown changes no fact of this kind.
   */
  lemma HybridKeeps(good: RecallResult -> bool, answers: seq<Answer>, request: Request, imp: RecallResult -> real,
                    sqrt: real -> real, neighbours: set<EntityTraversal.EntityId> -> seq<EntityTraversal.Row>,
                    fetch: seq<Id> -> Option<seq<RecallResult>>, live: Id -> bool,
                    st: Stages, results: seq<RecallResult>)
    requires IsHybrid(answers, request, imp, sqrt, neighbours, fetch, live, st, results)
    requires forall r :: InAnswers(answers, r) ==> good(r)
    requires forall r :: r in st.linked ==> good(r)
    requires forall r: RecallResult :: r.scope == Knowledge ==> good(r)
    requires forall r: RecallResult, summary :: good(r) ==> good(r.(entitySummary := summary))
    ensures forall r :: r in results ==> good(r)
  {
    forall r | r in st.fused ensures good(r) {
      FusedAreFound(answers, RankFusion.ScoreOf(st.memory, st.links, request.rrfK, imp), st.fused, r);
    }
    forall r | r in st.knowledge ensures good(r) { ChosenAreKnowledge(answers, request, sqrt, st.knowledge, r); }
    SummaryKeeps(good, st.fused + st.linked + st.knowledge, request.entitySummary);
  }

  lemma SummaryKeeps(good: RecallResult -> bool, results: seq<RecallResult>, summary: Option<string>)
    requires forall r :: r in results ==> good(r)
    requires forall r: RecallResult, shown :: good(r) ==> good(r.(entitySummary := shown))
    ensures forall r :: r in Summarised(results, summary) ==> good(r)
  {
    if results != [] { assert good(results[0]) && good(results[0].(entitySummary := summary)); }
  }

  lemma AnswersAreCurrent(db: Db, now: Time, answers: seq<Answer>, r: RecallResult)
    requires OrgNeverExpires(db) && AnswersAll(db, now, None, answers) && InAnswers(answers, r)
    ensures Backed(db, r, CurrentAt(now))
  {
    var i :| 0 <= i < |answers| && InAnswer(answers[i], r);
    SearchIsCurrent(db, answers[i].search, now, answers[i].results.value);
  }

  ghost function BackedBy(db: Db, ok: Row -> bool): RecallResult -> bool {
    (r: RecallResult) => Backed(db, r, ok)
  }

  lemma AllAreBacked(db: Db, results: seq<RecallResult>, ok: Row -> bool)
    requires forall r :: r in results ==> BackedBy(db, ok)(r)
    ensures AllBacked(db, results, ok)
  {
    forall r | r in results ensures Backed(db, r, ok) { assert BackedBy(db, ok)(r); }
  }

  lemma HybridIsCurrent(db: Db, now: Time, answers: seq<Answer>, request: Request, imp: RecallResult -> real,
                        sqrt: real -> real, neighbours: set<EntityTraversal.EntityId> -> seq<EntityTraversal.Row>,
                        fetch: seq<Id> -> Option<seq<RecallResult>>, st: Stages, results: seq<RecallResult>)
    requires OrgNeverExpires(db) && AnswersAll(db, now, None, answers)
    requires IsHybrid(answers, request, imp, sqrt, neighbours, fetch, Live(db, now), st, results)
    ensures AllBacked(db, results, CurrentAt(now))
  {
    var good := BackedBy(db, CurrentAt(now));
    forall r | InAnswers(answers, r) ensures good(r) { AnswersAreCurrent(db, now, answers, r); }
    forall r | r in st.linked ensures good(r) { ExpandedAreCurrent(db, now, request, st, r); }
    HybridKeeps(good, answers, request, imp, sqrt, neighbours, fetch, Live(db, now), st, results);
    AllAreBacked(db, results, CurrentAt(now));
  }

  /** A linked result names its source. */
  lemma ExpandedAreLinked(request: Request, live: Id -> bool, st: Stages, r: RecallResult)
    requires Expands(request, live, st) && r in st.linked
    ensures r.linkedVia.Some?
  {
    var existing := Collections.ToSet(Ids(st.fused));
    var rows, limit := request.linkRows.value, LinkExpansion.EXPAND_LIMIT_PER_RESULT;
    var i :| 0 <= i < |st.linked| && st.linked[i] == r;
    assert Ids(st.linked)[i] == r.id && r.id in Ids(st.linked);
    LinkExpansion.FirstSourceFinds(LinkExpansion.Sources(rows, existing),
                                   LinkExpansion.Buckets(rows, existing, limit), r.id);
  }

  /** A point in time is honoured by every private result that the link expansion did not bring in. */
  lemma FoundAreAsOf(db: Db, now: Time, t: Time, answers: seq<Answer>, request: Request, imp: RecallResult -> real,
                     sqrt: real -> real, neighbours: set<EntityTraversal.EntityId> -> seq<EntityTraversal.Row>,
                     fetch: seq<Id> -> Option<seq<RecallResult>>, st: Stages, results: seq<RecallResult>)
    requires AnswersAll(db, now, Some(t), answers)
    requires forall i :: 0 <= i < |answers| ==> !answers[i].search.TypeRouted?
    requires IsHybrid(answers, request, imp, sqrt, neighbours, fetch, Live(db, now), st, results)
    ensures FoundBacked(db, results, ValidAt(t))
  {
    ghost var good := (r: RecallResult) => r.scope == Private && r.linkedVia == None ==> Backed(db, r, ValidAt(t));
    forall r | InAnswers(answers, r) ensures good(r) {
      var i :| 0 <= i < |answers| && InAnswer(answers[i], r);
      if r.scope == Private { SearchIsAsOf(db, answers[i].search, now, t, answers[i].results.value, r); }
    }
    forall r | r in st.linked ensures good(r) { ExpandedAreLinked(request, Live(db, now), st, r); }
    HybridKeeps(good, answers, request, imp, sqrt, neighbours, fetch, Live(db, now), st, results);
    forall r | r in results && r.scope == Private && r.linkedVia == None ensures Backed(db, r, ValidAt(t)) {
      assert good(r);
    }
  }

  /** Without an embedding of the query nothing is linked. */
  lemma UnembeddedAreFound(db: Db, now: Time, t: Time, answers: seq<Answer>, request: Request,
                           imp: RecallResult -> real, sqrt: real -> real,
                           neighbours: set<EntityTraversal.EntityId> -> seq<EntityTraversal.Row>,
                           fetch: seq<Id> -> Option<seq<RecallResult>>, st: Stages, results: seq<RecallResult>)
    requires AnswersAll(db, now, Some(t), answers) && request.queryEmbedding == []
    requires IsHybrid(answers, request, imp, sqrt, neighbours, fetch, Live(db, now), st, results)
    ensures forall r :: r in results && r.scope == Private ==> r.linkedVia == None
  {
    var good := (r: RecallResult) => r.scope == Private ==> r.linkedVia == None;
    forall r | InAnswers(answers, r) ensures good(r) {
      var i :| 0 <= i < |answers| && InAnswer(answers[i], r);
    }
    HybridKeeps(good, answers, request, imp, sqrt, neighbours, fetch, Live(db, now), st, results);
    forall r | r in results && r.scope == Private ensures r.linkedVia == None { assert good(r); }
  }

  lemma HybridIsAsOf(db: Db, now: Time, t: Time, answers: seq<Answer>, request: Request, imp: RecallResult -> real,
                     sqrt: real -> real, neighbours: set<EntityTraversal.EntityId> -> seq<EntityTraversal.Row>,
                     fetch: seq<Id> -> Option<seq<RecallResult>>, st: Stages, results: seq<RecallResult>)
    requires AnswersAll(db, now, Some(t), answers)
    requires forall i :: 0 <= i < |answers| ==> !answers[i].search.TypeRouted?
    requires IsHybrid(answers, request, imp, sqrt, neighbours, fetch, Live(db, now), st, results)
    ensures FoundBacked(db, results, ValidAt(t))
    ensures request.queryEmbedding == [] ==> PrivateBacked(db, results, ValidAt(t))
  {
    FoundAreAsOf(db, now, t, answers, request, imp, sqrt, neighbours, fetch, st, results);
    if request.queryEmbedding == [] {
      UnembeddedAreFound(db, now, t, answers, request, imp, sqrt, neighbours, fetch, st, results);
    }
  }

  lemma SearchIsAsOf(db: Db, search: Search, now: Time, t: Time, results: seq<RecallResult>, r: RecallResult)
    requires AnswersSearch(db, search, now, Some(t), results) && !search.TypeRouted?
    requires r in results && r.scope == Private
    ensures Backed(db, r, ValidAt(t))
  {
    assert Backed(db, r, WhereOf(search, now, Some(t)));
  }

  // ---- The same chunk twice ----

  lemma {:induction false} NoChunks(results: seq<RecallResult>)
    requires forall r :: r in results ==> r.scope != Knowledge
    ensures Chunks(results, true) == []
  {
    if results == [] {
    } else {
      assert results[|results| - 1] in results;
      NoChunks(results[..|results| - 1]);
    }
  }

  lemma {:induction false} AllChunks(results: seq<RecallResult>)
    requires forall r :: r in results ==> r.scope == Knowledge
    ensures Chunks(results, true) == results
  {
    if results == [] {
    } else {
      assert results[|results| - 1] in results;
      AllChunks(results[..|results| - 1]);
    }
  }

  lemma {:induction false} SameChunkIds(a: seq<RecallResult>, b: seq<RecallResult>, knowledge: bool)
    requires |a| == |b| && forall i :: 0 <= i < |a| ==> a[i].id == b[i].id && a[i].scope == b[i].scope
    ensures Ids(Chunks(a, knowledge)) == Ids(Chunks(b, knowledge))
  {
    if a == [] {
    } else {
      var n := |a| - 1;
      SameChunkIds(a[..n], b[..n], knowledge);
      IdsAppend(Chunks(a[..n], knowledge), a[n]);
      IdsAppend(Chunks(b[..n], knowledge), b[n]);
      if (a[n].scope == Knowledge) != knowledge {
        assert Chunks(a, knowledge) == Chunks(a[..n], knowledge) && Chunks(b, knowledge) == Chunks(b[..n], knowledge);
      }
    }
  }

  lemma IdsAppend(results: seq<RecallResult>, r: RecallResult)
    ensures Ids(results + [r]) == Ids(results) + [r.id]
  {
  }

  lemma SummaryKeepsChunks(results: seq<RecallResult>, summary: Option<string>)
    ensures Ids(Chunks(Summarised(results, summary), true)) == Ids(Chunks(results, true))
  {
    var shown := Summarised(results, summary);
    assert |shown| == |results|;
    forall i | 0 <= i < |results| ensures shown[i].id == results[i].id && shown[i].scope == results[i].scope {
      if i > 0 { assert shown[i] == results[i]; }
    }
    SameChunkIds(shown, results, true);
  }

  /** Memories before, chunks after: the chunks are the second part. */
  lemma ChunksOfParts(memories: seq<RecallResult>, chunks: seq<RecallResult>)
    requires forall r :: r in memories ==> r.scope != Knowledge
    requires forall r :: r in chunks ==> r.scope == Knowledge
    ensures Chunks(memories + chunks, true) == chunks
  {
    NoChunks(memories);
    AllChunks(chunks);
    ChunksConcat(memories, chunks, true);
  }

  /** The chunks among the results are the chosen ones, in their order. */
  lemma ResultChunks(answers: seq<Answer>, request: Request, imp: RecallResult -> real, sqrt: real -> real,
                     neighbours: set<EntityTraversal.EntityId> -> seq<EntityTraversal.Row>,
                     fetch: seq<Id> -> Option<seq<RecallResult>>, live: Id -> bool,
                     st: Stages, results: seq<RecallResult>)
    requires IsHybrid(answers, request, imp, sqrt, neighbours, fetch, live, st, results)
    ensures Ids(Chunks(results, true)) == Ids(st.knowledge)
  {
    forall r | r in st.fused + st.linked ensures r.scope != Knowledge {
      if r in st.fused {
        FusedAreFound(answers, RankFusion.ScoreOf(st.memory, st.links, request.rrfK, imp), st.fused, r);
      }
    }
    forall r | r in st.knowledge ensures r.scope == Knowledge {
      ChosenAreKnowledge(answers, request, sqrt, st.knowledge, r);
    }
    ChunksOfParts(st.fused + st.linked, st.knowledge);
    SummaryKeepsChunks(st.fused + st.linked + st.knowledge, request.entitySummary);
  }

  /** The chunks found that score high enough after the keyword boost, in the order found. */
  function EligibleChunks(answers: seq<Answer>, request: Request): seq<RecallResult> {
    Mmr.Eligible(RescoreAll(Chunks(AllResults(answers), true), BoostBy(request)), KNOWLEDGE_MIN_SCORE)
  }

  /** Every chunk carries no embedding, or that of the query. */
  ghost predicate ChunksShareQuery(answers: seq<Answer>, query: seq<real>) {
    forall c :: c in Chunks(AllResults(answers), true) ==> c.embedding == [] || c.embedding == query
  }

  lemma EligibleShareQuery(answers: seq<Answer>, request: Request, i: nat)
    requires ChunksShareQuery(answers, request.queryEmbedding) && i < |EligibleChunks(answers, request)|
    ensures EligibleChunks(answers, request)[i].embedding == []
         || EligibleChunks(answers, request)[i].embedding == request.queryEmbedding
  {
    var candidates := Chunks(AllResults(answers), true);
    var rescored := RescoreAll(candidates, BoostBy(request));
    var c := EligibleChunks(answers, request)[i];
    Mmr.EligibleIsFilter(rescored, KNOWLEDGE_MIN_SCORE, c);
    var j :| 0 <= j < |rescored| && rescored[j] == c;
    assert candidates[j] in candidates;
  }

  /** The chunks returned for a query without an embedding. */
  function FirstChunks(answers: seq<Answer>): seq<RecallResult> {
    var candidates := Chunks(AllResults(answers), true);
    if |candidates| <= KNOWLEDGE_LIMIT then candidates else candidates[..KNOWLEDGE_LIMIT]
  }

  /**
   * When a chunk comes back twice. With an embedding of the query: exactly when the first eligible
   * chunk was found by the keyword search, and the first eligible one found by the vector search is the
   * same chunk. Without one: exactly when it is twice among the first four.
   */
  lemma ChunkTwiceIff(answers: seq<Answer>, request: Request, imp: RecallResult -> real, sqrt: real -> real,
                      neighbours: set<EntityTraversal.EntityId> -> seq<EntityTraversal.Row>,
                      fetch: seq<Id> -> Option<seq<RecallResult>>, live: Id -> bool,
                      st: Stages, results: seq<RecallResult>)
    requires IsHybrid(answers, request, imp, sqrt, neighbours, fetch, live, st, results)
    requires Cosine.IsSqrt(sqrt) && (request.queryEmbedding == [] || Cosine.NonZero(request.queryEmbedding))
    requires ChunksShareQuery(answers, request.queryEmbedding)
    ensures !Collections.Distinct(Ids(Chunks(results, true))) <==>
            if request.queryEmbedding == [] then !Collections.Distinct(Ids(FirstChunks(answers)))
            else Mmr.RepeatsFirst(EligibleChunks(answers, request))
  {
    ResultChunks(answers, request, imp, sqrt, neighbours, fetch, live, st, results);
    ChoiceTwiceIff(answers, request, sqrt, st.knowledge);
  }

  lemma ChoiceTwiceIff(answers: seq<Answer>, request: Request, sqrt: real -> real, chosen: seq<RecallResult>)
    requires IsChoice(Chunks(AllResults(answers), true), request, sqrt, chosen)
    requires Cosine.IsSqrt(sqrt) && (request.queryEmbedding == [] || Cosine.NonZero(request.queryEmbedding))
    requires ChunksShareQuery(answers, request.queryEmbedding)
    ensures !Collections.Distinct(Ids(chosen)) <==>
            if request.queryEmbedding == [] then !Collections.Distinct(Ids(FirstChunks(answers)))
            else Mmr.RepeatsFirst(EligibleChunks(answers, request))
  {
    if request.queryEmbedding == [] {
      assert chosen == FirstChunks(answers);
    } else if Chunks(AllResults(answers), true) == [] {
      assert EligibleChunks(answers, request) == [];
    } else {
      SelectedTwiceIff(answers, request, sqrt, chosen);
    }
  }

  lemma SelectedTwiceIff(answers: seq<Answer>, request: Request, sqrt: real -> real, chosen: seq<RecallResult>)
    requires Cosine.IsSqrt(sqrt) && Cosine.NonZero(request.queryEmbedding)
    requires ChunksShareQuery(answers, request.queryEmbedding)
    requires Mmr.IsSelection(Mmr.Rank(Mmr.CosineSimilarity(sqrt), request.queryEmbedding, KNOWLEDGE_WEIGHTS),
                             EligibleChunks(answers, request), KNOWLEDGE_LIMIT, chosen)
    ensures !Collections.Distinct(Ids(chosen)) <==> Mmr.RepeatsFirst(EligibleChunks(answers, request))
  {
    var eligible := EligibleChunks(answers, request);
    var picks :| Mmr.IsMmr(Mmr.Rank(Mmr.CosineSimilarity(sqrt), request.queryEmbedding, KNOWLEDGE_WEIGHTS),
                           eligible, KNOWLEDGE_LIMIT, picks) && chosen == Mmr.Picked(eligible, picks);
    forall i | 0 <= i < |eligible|
      ensures eligible[i].embedding == [] || eligible[i].embedding == request.queryEmbedding
    {
      EligibleShareQuery(answers, request, i);
    }
    Mmr.ChunkTwiceIff(sqrt, request.queryEmbedding, KNOWLEDGE_WEIGHTS, eligible, picks);
  }

  // ---- What is found, in which order ----

  /** The answers are laid end to end. */
  lemma {:induction false} AllResultsConcat(a: seq<Answer>, b: seq<Answer>)
    ensures AllResults(a + b) == AllResults(a) + AllResults(b)
  {
    if b == [] {
      assert a + b == a;
    } else {
      assert (a + b)[..|a + b| - 1] == a + b[..|b| - 1];
      AllResultsConcat(a, b[..|b| - 1]);
    }
  }

  /** Memories and chunks keep the order of the answers: the searches before, then this one, then those after. */
  lemma PartitionInOrder(before: seq<Answer>, found: seq<RecallResult>, search: Search, after: seq<Answer>,
                         knowledge: bool)
    ensures Chunks(AllResults(before + [Answer(search, Some(found))] + after), knowledge) ==
            Chunks(AllResults(before), knowledge) + Chunks(found, knowledge) + Chunks(AllResults(after), knowledge)
    ensures AllResults(before + [Answer(search, None)] + after) == AllResults(before + after)
  {
    SearchBetween(before, Answer(search, Some(found)), after);
    SearchBetween(before, Answer(search, None), after);
    AllResultsConcat(before, after);
    ChunksConcat(AllResults(before) + found, AllResults(after), knowledge);
    ChunksConcat(AllResults(before), found, knowledge);
  }

  lemma SearchBetween(before: seq<Answer>, a: Answer, after: seq<Answer>)
    ensures AllResults(before + [a] + after) ==
            AllResults(before) + (if a.results.Some? then a.results.value else []) + AllResults(after)
  {
    AllResultsConcat(before + [a], after);
    assert (before + [a])[..|before|] == before;
  }
}
