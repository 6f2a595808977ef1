/**
 * What a caller of recall gets (src/qortia/recall.py): which chunk comes first and how it is scored,
 * where each memory found ends up, and in which order the response is.
 */
module RecallResponse {
  import opened Wrappers
  import opened Results
  import opened Collections
  import opened RecallPipeline
  import RankFusion
  import EntityTraversal
  import LinkExpansion
  import Mmr
  import Cosine
  import Rerank
  import Budget
  import Text

  // ---- The keyword boost ----

  /** A word of the query that counts occurs in the content. */
  ghost predicate Hits(query: string, lower: string -> string, content: string, word: string) {
    word in Text.Words(query) && |word| > 2 && OccursIn(lower(word), lower(content))
  }

  lemma ShareBounds(m: nat, n: nat)
    requires m <= n && n > 0
    ensures 0.0 <= m as real / n as real <= 1.0
    ensures m as real / n as real == 0.0 <==> m == 0
    ensures m as real / n as real == 1.0 <==> m == n
  {
  }

  /** The boost is a share: none without a hit, and only then; all when no word that counts misses. */
  lemma BoostIsShare(query: string, lower: string -> string, content: string)
    ensures 0.0 <= KeywordBoost(query, lower, content) <= 1.0
    ensures KeywordBoost(query, lower, content) > 0.0 <==> exists word :: Hits(query, lower, content, word)
  {
    var tokens := Tokens(query, lower);
    var matched := Matched(tokens, lower(content));
    HitsAreMatched(query, lower, content);
    if tokens != {} {
      SubsetCount(matched, tokens);
      ShareBounds(|matched|, |tokens|);
    }
  }

  lemma HitsAreMatched(query: string, lower: string -> string, content: string)
    ensures Matched(Tokens(query, lower), lower(content)) != {} <==>
            exists word :: Hits(query, lower, content, word)
  {
    var matched := Matched(Tokens(query, lower), lower(content));
    if t :| t in matched {
      var word :| word in Text.Words(query) && |word| > 2 && lower(word) == t;
      assert Hits(query, lower, content, word);
    }
    if word :| Hits(query, lower, content, word) { assert lower(word) in matched; }
  }

  /** The whole boost is for contents with every token of the query. */
  lemma FullBoostIff(query: string, lower: string -> string, content: string)
    ensures KeywordBoost(query, lower, content) == 1.0 <==>
            && (exists word :: word in Text.Words(query) && |word| > 2)
            && forall word :: word in Text.Words(query) && |word| > 2 ==> Hits(query, lower, content, word)
  {
    var tokens := Tokens(query, lower);
    var matched := Matched(tokens, lower(content));
    if word :| word in Text.Words(query) && |word| > 2 { assert lower(word) in tokens; }
    if tokens != {} {
      SubsetCount(matched, tokens);
      ShareBounds(|matched|, |tokens|);
      WholeSubset(matched, tokens);
      AllHitIff(query, lower, content);
    }
  }

  lemma WholeSubset<T>(a: set<T>, b: set<T>)
    requires a <= b
    ensures |a| == |b| <==> a == b
  {
    assert |b| == |a| + |b - a|;
  }

  lemma AllHitIff(query: string, lower: string -> string, content: string)
    ensures Matched(Tokens(query, lower), lower(content)) == Tokens(query, lower) <==>
            forall word :: word in Text.Words(query) && |word| > 2 ==> Hits(query, lower, content, word)
  {
    var tokens := Tokens(query, lower);
    var matched := Matched(tokens, lower(content));
    if matched == tokens {
      forall word | word in Text.Words(query) && |word| > 2 ensures Hits(query, lower, content, word) {
        assert lower(word) in tokens;
      }
    } else {
      var t :| t in tokens && t !in matched;
      var word :| word in Text.Words(query) && |word| > 2 && lower(word) == t;
      assert !Hits(query, lower, content, word);
    }
  }

  // ---- How a chunk is scored ----

  /** The score with which a chunk competes: that of its search, raised by the boost in proportion. */
  function Boosted(c: RecallResult, request: Request): real {
    c.score + c.score * KeywordBoost(request.query, request.lower, c.content)
  }

  lemma RescoredIsBoosted(c: RecallResult, request: Request)
    ensures Rescored(c, BoostBy(request)) == c.(score := Boosted(c, request))
  {
  }

  /** The boost at most doubles a score, and raises it exactly when a word of the query occurs in the chunk. */
  lemma BoostRaises(c: RecallResult, request: Request)
    requires c.score > 0.0
    ensures c.score <= Boosted(c, request) <= 2.0 * c.score
    ensures Boosted(c, request) > c.score <==>
            exists word :: Hits(request.query, request.lower, c.content, word)
  {
    var boost := KeywordBoost(request.query, request.lower, c.content);
    BoostIsShare(request.query, request.lower, c.content);
    Raised(c.score, boost, c.score * boost);
  }

  lemma Raised(score: real, boost: real, p: real)
    requires score > 0.0 && 0.0 <= boost <= 1.0 && p == score * boost
    ensures 0.0 <= p <= score && (p > 0.0 <==> boost > 0.0)
  {
    var rest := score * (1.0 - boost);
    assert p + rest == score;
    assert rest >= 0.0;
  }

  // ---- Which chunks are chosen ----

  lemma SelectedInOrder(candidates: seq<RecallResult>, request: Request, sqrt: real -> real,
                        chosen: seq<RecallResult>)
    requires IsChoice(candidates, request, sqrt, chosen) && request.queryEmbedding != [] && candidates != []
    ensures Mmr.IsSelection(Mmr.Rank(Mmr.CosineSimilarity(sqrt), request.queryEmbedding, KNOWLEDGE_WEIGHTS),
                            Mmr.Eligible(RescoreAll(candidates, BoostBy(request)), 0.30), 4, chosen)
  {
  }

  /** For an embedded query the first chunk is the first one found whose boosted score is at least 0.30. */
  lemma FirstChunk(candidates: seq<RecallResult>, request: Request, sqrt: real -> real, chosen: seq<RecallResult>)
    returns (first: nat)
    requires IsChoice(candidates, request, sqrt, chosen) && request.queryEmbedding != []
    ensures first <= |candidates| && forall i :: 0 <= i < first ==> Boosted(candidates[i], request) < 0.30
    ensures first == |candidates| ==> chosen == []
    ensures first < |candidates| ==>
      && Boosted(candidates[first], request) >= 0.30 && chosen != []
      && chosen[0] == candidates[first].(score := Boosted(candidates[first], request))
  {
    if candidates == [] { return 0; }
    var rescored := RescoreAll(candidates, BoostBy(request));
    SelectedInOrder(candidates, request, sqrt, chosen);
    first := Mmr.FirstSelected(Mmr.Rank(Mmr.CosineSimilarity(sqrt), request.queryEmbedding, KNOWLEDGE_WEIGHTS),
                               rescored, 0.30, 4, chosen);
    forall i | 0 <= i < |candidates| ensures rescored[i] == candidates[i].(score := Boosted(candidates[i], request)) {
      RescoredIsBoosted(candidates[i], request);
    }
    assert forall i :: 0 <= i < first ==> rescored[i].score < 0.30;
  }

  /** Each chunk chosen is a candidate with its boosted score, which is at least 0.30; there are at most four. */
  lemma ChosenScoreEnough(candidates: seq<RecallResult>, request: Request, sqrt: real -> real,
                          chosen: seq<RecallResult>, c: RecallResult)
    requires IsChoice(candidates, request, sqrt, chosen) && request.queryEmbedding != [] && c in chosen
    ensures |chosen| <= 4 && c.score >= 0.30
    ensures exists d :: d in candidates && c == d.(score := Boosted(d, request))
  {
    ChoiceIsSmall(candidates, request, sqrt, chosen);
    var rescored := RescoreAll(candidates, BoostBy(request));
    SelectedAreEligible(Mmr.Rank(Mmr.CosineSimilarity(sqrt), request.queryEmbedding, KNOWLEDGE_WEIGHTS),
                        Mmr.Eligible(rescored, 0.30), 4, chosen);
    Mmr.EligibleIsFilter(rescored, 0.30, c);
    var j :| 0 <= j < |rescored| && rescored[j] == c;
    RescoredIsBoosted(candidates[j], request);
    assert candidates[j] in candidates;
  }

  /** Two chunks chosen that carry embeddings have a cosine below 0.85. */
  lemma ChosenDiffer(candidates: seq<RecallResult>, request: Request, sqrt: real -> real, chosen: seq<RecallResult>,
                     i: nat, j: nat)
    requires IsChoice(candidates, request, sqrt, chosen) && request.queryEmbedding != []
    requires i < |chosen| && j < |chosen| && i != j && chosen[i].embedding != [] && chosen[j].embedding != []
    ensures Cosine.CosineOf(sqrt, chosen[i].embedding, chosen[j].embedding) < 0.85
  {
    var rank := Mmr.Rank(Mmr.CosineSimilarity(sqrt), request.queryEmbedding, KNOWLEDGE_WEIGHTS);
    var eligible := Mmr.Eligible(RescoreAll(candidates, BoostBy(request)), 0.30);
    var picks :| Mmr.IsMmr(rank, eligible, 4, picks) && chosen == Mmr.Picked(eligible, picks);
    Mmr.EmbeddedPicksDiffer(sqrt, request.queryEmbedding, KNOWLEDGE_WEIGHTS, eligible, picks, i, j);
  }

  /** Relevance and redundancy count alike. */
  lemma WeighedAlike(relevance: real, redundancy: real)
    ensures Mmr.Weigh(KNOWLEDGE_WEIGHTS.lambda, relevance, redundancy) == (relevance - redundancy) / 2.0
  {
  }

  /** Without an embedding of the query there is no walk, no expansion and no choice: the first four chunks found. */
  lemma UnembeddedIsPlain(answers: seq<Answer>, request: Request, imp: RecallResult -> real, sqrt: real -> real,
                          neighbours: set<EntityTraversal.EntityId> -> seq<EntityTraversal.Row>,
                          fetch: seq<Id> -> Option<seq<RecallResult>>, live: Id -> bool,
                          st: Stages, results: seq<RecallResult>)
    requires IsHybrid(answers, request, imp, sqrt, neighbours, fetch, live, st, results)
    requires request.queryEmbedding == []
    ensures st.links == request.entityLinks && st.linked == []
    ensures st.knowledge <= Chunks(AllResults(answers), true)
    ensures |st.knowledge| == 4 || (|st.knowledge| < 4 && st.knowledge == Chunks(AllResults(answers), true))
  {
  }

  /** The walk only adds links, and starts from none when the query names no entity that is linked. */
  lemma WalkAddsLinks(request: Request, neighbours: set<EntityTraversal.EntityId> -> seq<EntityTraversal.Row>,
                      links: set<Id>, id: Id)
    requires IsLinkSet(request, neighbours, links)
    ensures id in request.entityLinks ==> id in links
    ensures id in links && id !in request.entityLinks ==>
      && request.entityLinks != {} && request.queryEmbedding != []
      && exists e :: e in Nearby(request) && e in request.entityTable && id in request.entityTable[e].linked
  {
  }

  // ---- Where the results stand ----

  /** The summary goes onto the first result and nothing else changes. */
  lemma SummaryOnFirst(results: seq<RecallResult>, summary: Option<string>)
    ensures var shown := Summarised(results, summary);
      && |shown| == |results| && forall i :: 0 < i < |shown| ==> shown[i] == results[i]
    ensures var shown := Summarised(results, summary);
      results != [] ==>
        if summary.Some? && summary.value != "" then
          shown[0].entitySummary == summary && shown[0].(entitySummary := results[0].entitySummary) == results[0]
        else shown[0] == results[0]
    ensures Ids(Summarised(results, summary)) == Ids(results)
  {
  }

  /** Memories come before chunks. */
  ghost predicate MemoriesFirst(results: seq<RecallResult>, n: nat) {
    && n <= |results|
    && (forall i :: 0 <= i < n ==> results[i].scope != Knowledge)
    && (forall i :: n <= i < |results| ==> results[i].scope == Knowledge)
  }

  lemma IdsMember(results: seq<RecallResult>, id: Id)
    ensures id in Ids(results) <==> exists r :: r in results && r.id == id
  {
    if id in Ids(results) {
      var i :| 0 <= i < |results| && Ids(results)[i] == id;
      assert results[i] in results;
    }
    if r :| r in results && r.id == id {
      var i :| 0 <= i < |results| && results[i] == r;
      assert Ids(results)[i] == id;
    }
  }

  /** A search found a memory with this id. */
  ghost predicate IsFound(answers: seq<Answer>, id: Id) {
    exists r :: InAnswers(answers, r) && r.scope != Knowledge && r.id == id
  }

  lemma FusedIds(answers: seq<Answer>, score: Id -> real, fused: seq<RecallResult>, id: Id)
    requires RankFusion.IsFusion(Chunks(AllResults(answers), false), score, fused)
    ensures id in Ids(fused) <==> IsFound(answers, id)
  {
    var memory := Chunks(AllResults(answers), false);
    RankFusion.FusionListsEachOnce(memory, score, fused);
    IdsMember(fused, id);
    assert id in IdsOf(memory) <==> id in IdsOf(fused);
    forall r ensures r in memory <==> InAnswers(answers, r) && r.scope != Knowledge {
      ChunksMembers(AllResults(answers), false, r);
      AllResultsMembers(answers, r);
    }
  }

  lemma LinkedIsNew(request: Request, live: Id -> bool, st: Stages, id: Id)
    requires st.linked == [] || Expands(request, live, st)
    requires id in Ids(st.linked)
    ensures id !in Ids(st.fused)
  {
    var existing := ToSet(Ids(st.fused));
    var rows, limit := request.linkRows.value, LinkExpansion.EXPAND_LIMIT_PER_RESULT;
    var sources, bucket := LinkExpansion.Sources(rows, existing), LinkExpansion.Buckets(rows, existing, limit);
    assert LinkExpansion.Gathered(sources, bucket, id);
    var s :| s in sources && id in bucket(s);
    LinkExpansion.FreshTargetsAreLinked(rows, existing, s, id);
  }

  lemma MemoriesDiffer(answers: seq<Answer>, score: Id -> real, request: Request, live: Id -> bool, st: Stages)
    requires RankFusion.IsFusion(Chunks(AllResults(answers), false), score, st.fused)
    requires st.linked == [] || Expands(request, live, st)
    ensures Distinct(Ids(st.fused) + Ids(st.linked))
  {
    RankFusion.FusionListsEachOnce(Chunks(AllResults(answers), false), score, st.fused);
    forall id | id in Ids(st.fused) ensures id !in Ids(st.linked) {
      if id in Ids(st.linked) { LinkedIsNew(request, live, st, id); }
    }
    Rerank.DistinctConcat(Ids(st.fused), Ids(st.linked));
  }

  ghost predicate AllOfKind(results: seq<RecallResult>, knowledge: bool) {
    forall i :: 0 <= i < |results| ==> (results[i].scope == Knowledge) == knowledge
  }

  /** The fused results are memories. */
  lemma FusedAreMemories(answers: seq<Answer>, score: Id -> real, fused: seq<RecallResult>)
    requires RankFusion.IsFusion(Chunks(AllResults(answers), false), score, fused)
    ensures AllOfKind(fused, false)
  {
    forall i | 0 <= i < |fused| ensures fused[i].scope != Knowledge { FusedAreFound(answers, score, fused, fused[i]); }
  }

  /** So are the linked ones. */
  lemma LinkedAreMemories(request: Request, live: Id -> bool, st: Stages)
    requires st.linked == [] || Expands(request, live, st)
    ensures AllOfKind(st.linked, false)
  {
    forall i | 0 <= i < |st.linked| ensures st.linked[i].scope != Knowledge { assert st.linked[i] in st.linked; }
  }

  lemma ChosenAreChunks(answers: seq<Answer>, request: Request, sqrt: real -> real, chosen: seq<RecallResult>)
    requires IsChoice(Chunks(AllResults(answers), true), request, sqrt, chosen)
    ensures AllOfKind(chosen, true)
  {
    forall i | 0 <= i < |chosen| ensures chosen[i].scope == Knowledge {
      ChosenAreKnowledge(answers, request, sqrt, chosen, chosen[i]);
    }
  }

  lemma PartsInPlace(fused: seq<RecallResult>, linked: seq<RecallResult>, knowledge: seq<RecallResult>)
    requires AllOfKind(fused, false) && AllOfKind(linked, false) && AllOfKind(knowledge, true)
    ensures MemoriesFirst(fused + linked + knowledge, |fused| + |linked|)
  {
  }

  /** The summary leaves ids and kinds as they are. */
  lemma SummaryKeepsLayout(results: seq<RecallResult>, summary: Option<string>, n: nat)
    requires MemoriesFirst(results, n)
    ensures MemoriesFirst(Summarised(results, summary), n) && Ids(Summarised(results, summary)) == Ids(results)
  {
    var shown := Summarised(results, summary);
    SummaryOnFirst(results, summary);
    forall i | 0 <= i < |shown| ensures shown[i].scope == results[i].scope {
      if i > 0 { assert shown[i] == results[i]; }
    }
  }

  lemma IdsSlice(results: seq<RecallResult>, a: seq<Id>, b: seq<Id>, c: seq<Id>)
    requires Ids(results) == a + b + c
    ensures Ids(results[..|a|]) == a && Ids(results[..|a| + |b|]) == a + b && Ids(results[|a| + |b|..]) == c
  {
    assert |results| == |a| + |b| + |c|;
    assert forall i :: 0 <= i < |results| ==> results[i].id == (a + b + c)[i];
  }

  lemma LayoutOf(fused: seq<RecallResult>, linked: seq<RecallResult>, knowledge: seq<RecallResult>,
                 summary: Option<string>, results: seq<RecallResult>)
    requires AllOfKind(fused, false) && AllOfKind(linked, false) && AllOfKind(knowledge, true)
    requires results == Summarised(fused + linked + knowledge, summary)
    ensures var f, n := |fused|, |fused| + |linked|;
      && MemoriesFirst(results, n) && Ids(results[..f]) == Ids(fused) && Ids(results[..n]) == Ids(fused) + Ids(linked)
      && Ids(results[f..n]) == Ids(linked) && Ids(results[n..]) == Ids(knowledge)
  {
    var all, f, n := fused + linked + knowledge, |fused|, |fused| + |linked|;
    PartsInPlace(fused, linked, knowledge);
    SummaryKeepsLayout(all, summary, n);
    assert Ids(all) == Ids(fused) + Ids(linked) + Ids(knowledge);
    IdsSlice(results, Ids(fused), Ids(linked), Ids(knowledge));
    assert Ids(results[f..n]) == Ids(results[..n])[f..];
  }

  /** Memories without repeats, the fused ones being those found. */
  ghost predicate AreFound(answers: seq<Answer>, fused: seq<RecallResult>, linked: seq<RecallResult>) {
    && AllOfKind(fused, false) && AllOfKind(linked, false) && Distinct(Ids(fused) + Ids(linked))
    && forall id :: id in Ids(fused) <==> IsFound(answers, id)
  }

  lemma FoundOnce(answers: seq<Answer>, score: Id -> real, request: Request, live: Id -> bool, st: Stages)
    requires RankFusion.IsFusion(Chunks(AllResults(answers), false), score, st.fused)
    requires st.linked == [] || Expands(request, live, st)
    ensures AreFound(answers, st.fused, st.linked)
  {
    FusedAreMemories(answers, score, st.fused);
    LinkedAreMemories(request, live, st);
    MemoriesDiffer(answers, score, request, live, st);
    forall id ensures id in Ids(st.fused) <==> IsFound(answers, id) { FusedIds(answers, score, st.fused, id); }
  }

  /**
   * The first `f` results are the memories found, those up to `n` were linked, no memory is listed twice,
   * and the rest are chunks.
   */
  ghost predicate ListsFoundFirst(answers: seq<Answer>, results: seq<RecallResult>, f: nat, n: nat) {
    && f <= n && MemoriesFirst(results, n) && Distinct(Ids(results[..n]))
    && forall id :: id in Ids(results[..f]) <==> IsFound(answers, id)
  }

  lemma PartsListFound(answers: seq<Answer>, fused: seq<RecallResult>, linked: seq<RecallResult>,
                       knowledge: seq<RecallResult>, summary: Option<string>, results: seq<RecallResult>)
    requires AreFound(answers, fused, linked) && AllOfKind(knowledge, true)
    requires results == Summarised(fused + linked + knowledge, summary)
    ensures ListsFoundFirst(answers, results, |fused|, |fused| + |linked|)
  {
    LayoutOf(fused, linked, knowledge, summary, results);
  }

  lemma HybridIsFound(answers: seq<Answer>, request: Request, imp: RecallResult -> real, sqrt: real -> real,
                      neighbours: set<EntityTraversal.EntityId> -> seq<EntityTraversal.Row>,
                      fetch: seq<Id> -> Option<seq<RecallResult>>, live: Id -> bool,
                      st: Stages, results: seq<RecallResult>)
    requires IsHybrid(answers, request, imp, sqrt, neighbours, fetch, live, st, results)
    ensures AreFound(answers, st.fused, st.linked)
  {
    FoundOnce(answers, RankFusion.ScoreOf(st.memory, st.links, request.rrfK, imp), request, live, st);
  }

  lemma HybridEndsInChunks(answers: seq<Answer>, request: Request, imp: RecallResult -> real, sqrt: real -> real,
                           neighbours: set<EntityTraversal.EntityId> -> seq<EntityTraversal.Row>,
                           fetch: seq<Id> -> Option<seq<RecallResult>>, live: Id -> bool,
                           st: Stages, results: seq<RecallResult>)
    requires IsHybrid(answers, request, imp, sqrt, neighbours, fetch, live, st, results)
    ensures AllOfKind(st.knowledge, true)
    ensures results == Summarised(st.fused + st.linked + st.knowledge, request.entitySummary)
  {
    ChosenAreChunks(answers, request, sqrt, st.knowledge);
  }

  /** Every memory that a search found is among the results, exactly once, and all memories stand before the chunks. */
  lemma EachMemoryOnce(answers: seq<Answer>, request: Request, imp: RecallResult -> real, sqrt: real -> real,
                       neighbours: set<EntityTraversal.EntityId> -> seq<EntityTraversal.Row>,
                       fetch: seq<Id> -> Option<seq<RecallResult>>, live: Id -> bool,
                       st: Stages, results: seq<RecallResult>)
    requires IsHybrid(answers, request, imp, sqrt, neighbours, fetch, live, st, results)
    ensures exists f, n :: ListsFoundFirst(answers, results, f, n)
  {
    HybridIsFound(answers, request, imp, sqrt, neighbours, fetch, live, st, results);
    HybridEndsInChunks(answers, request, imp, sqrt, neighbours, fetch, live, st, results);
    PartsListFound(answers, st.fused, st.linked, st.knowledge, request.entitySummary, results);
  }

  // ---- The order of the response ----

  /** Without a rerank the results come back as they were, up to the character budget. */
  lemma FinishKeepsOrder(results: seq<RecallResult>, rerank: bool, order: Option<seq<int>>, budget: int,
                         response: seq<RecallResult>)
    requires IsFinish(results, rerank, order, budget, response)
    requires !rerank || |results| < 2 || order == None
    ensures response <= results
    ensures budget <= 0 ==> response == results
    ensures budget > 0 && results != [] ==> response != []
    ensures budget > 0 ==> |Budget.AllContent(response)| <= budget || |response| == 1
  {
    if budget > 0 { FinishFills(results, budget, response); }
  }

  lemma FinishFills(ranked: seq<RecallResult>, budget: int, response: seq<RecallResult>)
    requires budget > 0 && response <= ranked && Budget.IsRecallCut(Budget.Lengths(ranked), budget, |response|)
    ensures ranked != [] ==> response != []
    ensures |Budget.AllContent(response)| <= budget || |response| == 1
  {
    Budget.RecallFillsBudget(ranked, budget, |response|);
    assert response == ranked[..|response|];
  }

  /**
   * With a rerank the response follows the list: first the results it names, in its order, then those
   * whose id it does not name, in theirs; without a character budget all of them.
   */
  lemma FinishFollowsList(results: seq<RecallResult>, order: seq<int>, budget: int, response: seq<RecallResult>)
    returns (named: seq<nat>, others: seq<nat>)
    requires IsFinish(results, true, Some(order), budget, response) && |results| >= 2
    ensures Increasing(named) && forall p: nat :: p in named <==> p < |order| && 1 <= order[p] <= |results|
    ensures Increasing(others)
    ensures forall p: nat :: p in others <==> p < |results| && !Rerank.NamesId(results, order, results[p].id)
    ensures |response| <= |named| + |others| && (budget <= 0 ==> |response| == |named| + |others|)
    ensures forall k :: 0 <= k < |response| ==>
              if k < |named| then Rerank.IsNamedAt(results, order, named[k], response[k])
              else others[k - |named|] < |results| && response[k] == results[others[k - |named|]]
  {
    var first, rest;
    named, first, others, rest := Rerank.RerankOrder(results, order);
    assert response <= first + rest;
    forall k | 0 <= k < |response| ensures
        if k < |named| then Rerank.IsNamedAt(results, order, named[k], response[k])
        else others[k - |named|] < |results| && response[k] == results[others[k - |named|]]
    {
      assert response[k] == (first + rest)[k];
    }
  }

  // ---- How far the graph reaches ----

  /** The entities nearby are those, not named in the query, that a chain of at most two hops reaches. */
  lemma NearbyIsTwoHops(request: Request, e: EntityTraversal.EntityId)
    ensures e in Nearby(request) <==>
            && e !in request.seedIds
            && exists p :: EntityTraversal.Walk(request.entityTable, request.tenant, ToSet(request.seedIds), p)
                        && |p| <= 3 && p[|p| - 1] == e
  {
    EntityTraversal.BallIsWalks(request.entityTable, request.tenant, ToSet(request.seedIds), 2, e);
  }
}
