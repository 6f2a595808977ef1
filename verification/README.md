# Qortia: a verified model of the memory store and the recall pipeline

Qortia keeps the memories of agents in Postgres, distils them into durable knowledge by asking a
language model (reflection), and answers queries by searching, fusing, diversifying and expanding
what it stored (recall). This project models that logic in Dafny and proves what it keeps: over single
calls, and over whole runs of the store in any order of requests and background tasks.

`dafny verify dfyconfig.toml` checks everything.

## How the model is laid out

| files | what they hold |
|---|---|
| `Wrappers`, `Collections`, `Arithmetic`, `Ranking`, `Text` | options and results, lists without repeats, small arithmetic, Python's stable descending sort, words and stripping |
| `EntityTraversal` | the bounded walk over co-occurring entities |
| `KnowledgeSplitter` | paragraph packing and the heading loop |
| `Results`, `RankFusion`, `Cosine`, `Mmr`, `LinkExpansion`, `Rerank`, `Budget`, `RecallPipeline`, `RecallResponse` | the stages of recall, the endpoint put together, and what its caller gets |
| `StoreModel`, `Remembering`, `Reflection`, `EntityIndex`, `LinkTable` | the tables, and what each transaction does to them |
| `MemoryStore` | the class whose methods change the tables step by step, each proved to reach the state its specification function gives |
| `StoreRuns`, `KnowledgeSurvival`, `ReflectionCounter`, `Staleness` | runs of the store: invariants, survival of knowledge, meaning of the counter, what recall shows of replaced knowledge |
| `Confidence` | outcome reports and the confidence they move |
| `SpanMatching` | the greedy matcher of the entity-extraction evaluation |

Each transaction is one step. Tables are maps whose keys carry the uniqueness rules of
`migrations/V1__initial_schema.sql` (297-299 for entities, 333 for links, 416 for outcome records). Floats
are reals. Square root and `log1p` are parameters of which only their defining properties are assumed.
Hashes are injective, so the content stands for its hash. Ids drawn by the database are parameters that were
never issued before. A query is answered by any list that satisfies its WHERE, ORDER and LIMIT clauses. The
clock is fixed within a request. `estimate_tokens` is 13 * words / 10 in integers.

## What the code does that its text does not say

- The reflection guard counts the ids in the reply without looking at them. One RETAIN of an id that names no
  row passes the guard for a single consolidated row and leaves the agent with none
  (`Reflection.UnknownIdWipes`); `Reflection.EmptiesIff` says exactly when a transaction empties the knowledge, and
  the survival theorems ask that the ids in a reply are distinct and name rows consolidated at that time.
- An UPDATE clears `is_consolidated` of the row it supersedes and leaves `valid_until` NULL, and no later write
  ever sets it. Recall goes by `valid_until`, so its searches keep finding such a row beside the one that replaced it
  (`Staleness.ReplacedIsHiddenIff`, `Staleness.OldShowsBesideNew`, `Staleness.UpdatedRowIsNeverEnded`).
- Rank fusion scores an id by how often it occurs, not by its rank in any list.
- The walk over entities restricts to the tenant but not to the agent, and recall uses only the keys of the
  boosts it returns (src/qortia/recall.py:757-759), so the decayed values have no effect on the ranking.
- Every chunk of the vector search carries the query's own embedding (src/qortia/recall.py:443-448), so MMR
  keeps at most one of them, and a chunk found by both searches can be returned twice
  (`RecallPipeline.ChunkTwiceIff` says exactly when).
- A reranking list with a repeated index repeats a result. One that leaves out a result whose id another named one
  shares drops it (`Rerank.TwinIsDropped`); a chunk returned twice is such a pair.
- `as_of` is ignored by the organisation search, the type-routed searches and the link expansion; with
  `as_of`, the keyword search may return rows ended since.
- The comment in src/qortia/recall_helpers.py:208-213 presents the character budget of recall as the policy of
  the context budget. They part where an entry is empty and the budget is spent, or follows only empty ones and
  exceeds it alone (`Budget.CutsAgreeIff`).
- src/qortia/recall.py:587 calls recording an outcome idempotent. The record is, but the confidences
  move again with every report until they reach the end of their range (`Confidence.RepeatIsHarmlessIff`).
- Agents below the default clearance of an entity row read no entity links (`EntityIndex.LowClearanceMisses`).

## Model

| member | source | states |
|---|---|---|
| EntityTraversal.BfsEntityTraversal | src/qortia/recall_rerank.py:65-124 | every entity discovered lies within the depth at the hop count recorded for it; each memory carries the largest boost of the discovered entities linked to it; when no round hits the row limit, the discovered entities are exactly those within the depth, each at its true distance |
| EntityTraversal.BallIsWalks | src/qortia/recall_rerank.py:89-107 | the ball that the walk is measured against is what explicit chains of qualifying co-occurrences of that many hops reach |
| EntityTraversal.FrontierSuffices | src/qortia/recall_rerank.py:84-107 | an entity first reached one hop out has a neighbour in the newest layer, so expanding from all visited equals expanding from the frontier |
| EntityTraversal.EmptyRoundIsFinal | src/qortia/recall_rerank.py:87-88 | a round that adds nothing is a fixpoint, so stopping at an empty frontier loses nothing |
| EntityTraversal.FullRoundIsNextBall | src/qortia/recall_rerank.py:89-107 | a round whose query was not cut adds precisely the next layer |
| EntityTraversal.TruncationOnlyLoses | src/qortia/recall_rerank.py:81-124 | whichever ten rows each round kept, every boosted memory is boosted at least as much by the walk that sees all rows |
| EntityTraversal.ExpandRound | src/qortia/recall_rerank.py:108-121 | one round: visited grows by the rows' entities, the frontier is what is new, repeats are skipped, boosts stay the maxima over discovered entities |
| EntityTraversal.BoostEquation | src/qortia/recall_rerank.py:116-118 | times 1000 plus the square of the other linked memories, the boost before decay is 500 times the similarity: widely linked entities count less |
| EntityTraversal.BoostDecays | src/qortia/recall_rerank.py:82-122 | the first hop is decayed once and each further hop once more; two hops at one half leave a quarter |
| KnowledgeSplitter.ParagraphSplit | src/qortia/knowledge.py:198-214 | the chunks are an order-preserving cut of all paragraphs, each a single paragraph or within 2000 tokens, and no chunk could have taken the next paragraph |
| KnowledgeSplitter.TightIsOptimal | src/qortia/knowledge.py:198-214 | such a cut uses the fewest chunks of all cuts whose chunks fit |
| KnowledgeSplitter.TightStaysAhead | src/qortia/knowledge.py:202-211 | greedy stays ahead: started anywhere inside another cut, it never needs more chunks than that cut |
| KnowledgeSplitter.ChunksJoinToParagraphs | src/qortia/knowledge.py:198-214 | joining the chunks gives back the joined paragraphs |
| KnowledgeSplitter.ParagraphsKeepWords | src/qortia/knowledge.py:199-199 | cutting at blank lines, stripping and dropping empties keeps the words of the text |
| KnowledgeSplitter.ParagraphsHaveNoBlankLine | src/qortia/knowledge.py:199-199 | no paragraph contains a blank line, and each is a stripped part of the text between blank lines |
| Text.SplitBlankJoins | src/qortia/knowledge.py:199-199 | cutting at blank lines loses nothing but them: joining the parts gives back the text |
| Text.StripCutsSpace | src/qortia/knowledge.py:199-199 | stripping removes white space at both ends and nothing else |
| KnowledgeSplitter.AddBody | src/qortia/knowledge.py:188-193 | a body becomes a greedy packing, a section of its own, a merge into the last section, or nothing when there is no section yet |
| KnowledgeSplitter.AddingGrows | src/qortia/knowledge.py:188-193 | through every branch the body's words come after those already there, earlier sections keep heading and text, and a large enough body stands under its own heading |
| KnowledgeSplitter.SplitIntoSections | src/qortia/knowledge.py:169-195 | without headings, the packing less its small chunks; with headings, the trace of the bodies from the opening on |
| KnowledgeSplitter.TraceKeepsWords | src/qortia/knowledge.py:178-195 | every trace has the words of the kept preamble followed by those of every body from the first kept one on, in order |
| KnowledgeSplitter.LosesNothingIff | src/qortia/knowledge.py:178-195 | the sections have every word but those of the heading lines if and only if the preamble is large enough, or it and all bodies before the first large enough one are empty |
| KnowledgeSplitter.SectionsAreBounded | src/qortia/knowledge.py:188-193 | a section starts within 2000 tokens, as a single paragraph or as the preamble, and what is merged into it are consecutive bodies of fewer than 50 tokens each |
| KnowledgeSplitter.PackingLosesNothingIff | src/qortia/knowledge.py:174-176 | without headings, the sections have every word if and only if every chunk of the packing is large enough |
| KnowledgeSplitter.SmallTextIff | src/qortia/knowledge.py:174-176 | a text within 2000 tokens and without headings keeps its words if and only if it has at least 50 tokens or no word |
| KnowledgeSplitter.SectionsTileText | src/qortia/knowledge.py:178-187 | when headings stand on lines of their own, the words of the text are those of the preamble and then, heading by heading, of its line and of its body, which ends where the next heading starts |
| KnowledgeSplitter.GrownWords | src/qortia/knowledge.py:192-193 | a section into which bodies were merged has the words of its base and of those bodies, in order |
| KnowledgeSplitter.ThresholdsInWords | src/qortia/knowledge.py:165-166 | a section is large enough from 39 words on and too large from 1540 on |
| RankFusion.RrfFuse | src/qortia/recall_helpers.py:126-156 | the distinct ids ranked by harmonic sum of occurrences times importance times boost, ties in order of first appearance, each shown by its last occurrence |
| RankFusion.FusionListsEachOnce | src/qortia/recall_helpers.py:136-156 | every distinct id occurs exactly once and no result is invented |
| RankFusion.HarmonicBounds | src/qortia/recall_helpers.py:136-140 | m occurrences score between m/(k+m) and m/(k+1) |
| RankFusion.ScoreIgnoresOrder | src/qortia/recall_helpers.py:136-154 | the score of an id is the same for every permutation of the input when repeats carry equal signals |
| RankFusion.FusionIgnoresOrder | src/qortia/recall_helpers.py:126-156 | permuting the input never changes the ranked sequence of scores when repeats carry equal signals |
| RankFusion.BoostIsOrderSafe | src/qortia/recall.py:734-759 | fusing again with a larger link set never puts a newly linked id below one it preceded |
| RankFusion.TwiceBeatsBoost | src/qortia/recall_helpers.py:136-154 | at equal positive importance the score of an unlinked id found m >= 2 times is at least that of a linked id found once, and higher if and only if k >= 1 or m > 2 |
| RankFusion.TwiceOutranks | src/qortia/recall_helpers.py:126-156 | in the fused list an unlinked id found at least twice stands before a linked id found once, at equal positive importance, if and only if k >= 1, or it was found more than twice, or it was seen first |
| RankFusion.ImportanceMonotone | src/qortia/recall_helpers.py:35-47 | recalling a memory more often never lowers its importance |
| RankFusion.RecalledMoreStaysAhead | src/qortia/recall_helpers.py:159-174 | sorted by importance, a result recalled more often is never put behind one it preceded, other signals being equal |
| RankFusion.CountIsOccurrences | src/qortia/recall_helpers.py:134-140 | the number of terms in the score of an id is the number of places at which it occurs |
| RankFusion.FirstSeenInOrder | src/qortia/recall_helpers.py:136-156 | ids compete in the order of the places at which they first occur |
| RankFusion.LastIsLatest | src/qortia/recall_helpers.py:141-156 | the result shown for an id is the one after which it does not occur again |
| RankFusion.RecencyFades | src/qortia/recall_helpers.py:42-45 | a recall today adds 0.2, every day since takes a thirtieth of that away, and from the thirtieth day on nothing is left |
| RankFusion.ImportanceIsProduct | src/qortia/recall_helpers.py:41-47 | the importance is the capped sum of base, frequency and recency, times the confidence |
| RankFusion.ImportanceUntouched | src/qortia/recall_helpers.py:143-149 | never recalled and in full confidence, a memory counts with its own importance, or one half without one |
| RankFusion.ImportanceFades | src/qortia/recall_helpers.py:41-47 | less confidence or a longer silence never raises the importance |
| Ranking.SortRanks | src/qortia/recall_helpers.py:156-156 | the sort keeps every element, orders by score descending, and keeps equal scores in their order |
| Cosine.CauchySchwarz | src/qortia/recall_helpers.py:250-256 | the squared dot product is at most the product of the squared lengths, for vectors cut to the shorter one as zip does |
| Cosine.CosineBounded | src/qortia/recall_helpers.py:250-256 | the similarity lies in [-1, 1] |
| Cosine.CosineSelf | src/qortia/recall_helpers.py:250-256 | a non-zero vector has similarity one to itself |
| Cosine.CosineNegated | src/qortia/recall_helpers.py:250-256 | turning one vector around turns the sign |
| Mmr.FindBest | src/qortia/recall_helpers.py:277-301 | the first of the best candidates that are embedded, not redundant and above -1, or none when there is none |
| Mmr.SelectGreedily | src/qortia/recall_helpers.py:259-307 | the first eligible, then each time the best that is left; at most k picks; it stops early only when nothing left may be picked |
| Mmr.Mmr | src/qortia/recall_helpers.py:259-307 | the same for the code's own score over cosine similarity and the candidates at or above the minimum score |
| Mmr.EligibleInOrder | src/qortia/recall_helpers.py:267-267 | the candidates that compete are those at exactly the places scoring at least the minimum, in the order found |
| Mmr.FirstSelected | src/qortia/recall_helpers.py:267-278 | the selection starts with the first candidate found that scores high enough, and is empty if and only if there is none |
| Mmr.WeighBalances | src/qortia/recall_helpers.py:298-298 | relevance raises the score in proportion to the weight, redundancy lowers it in proportion to the rest |
| Mmr.MmrIsUnique | src/qortia/recall_helpers.py:270-307 | that specification has one solution |
| Mmr.PicksAreDiverse | src/qortia/recall_helpers.py:284-296 | any two embedded picks are less similar than the threshold |
| Mmr.StopsOnlyWhenRedundant | src/qortia/recall_helpers.py:277-303 | with a weight below one, fewer than k picks means that every candidate left has no embedding or is redundant |
| Mmr.SharedEmbeddingYieldsOne | src/qortia/recall.py:443-448 | candidates that share one non-zero embedding yield at most one embedded pick, and two picks only after an unembedded first |
| Mmr.EmbeddedPicksDiffer | src/qortia/recall_helpers.py:250-296 | the same for two embedded picks in either order |
| Mmr.ChunkTwiceIff | src/qortia/recall.py:443-448 | when every embedding is that of the query, a chunk is picked twice if and only if the first eligible candidate has none and the first that has one is the same chunk |
| Mmr.SameChunkTwice | src/qortia/recall.py:443-448 | an input on which it is |
| LinkExpansion.GroupLinks | src/qortia/links.py:134-147 | the single pass leaves each source with its first two new targets in row order, and collects exactly those |
| LinkExpansion.ReverseMap | src/qortia/links.py:173-177 | each target is credited to the first source that holds it |
| LinkExpansion.SourcesInOrder | src/qortia/links.py:134-147 | sources stand in the order of their first rows with a new target |
| LinkExpansion.KeptAreMostSimilar | src/qortia/links.py:118-147 | every target kept for a source is at least as similar as any new target of that source left out |
| LinkExpansion.ExpandWithLinks | src/qortia/links.py:100-196 | the input followed by the live gathered targets, each once with its first source; the input alone when a query fails |
| LinkExpansion.ExpansionIsLinked | src/qortia/links.py:112-196 | at most ten results are appended, each new, live, and naming a top-five source that really links to it |
| Rerank.RerankKeepsIds | src/qortia/recall_rerank.py:44-62 | for any index list, the reranked results are results and no id is lost |
| Rerank.RerankOrder | src/qortia/recall_rerank.py:55-59 | first the results named by the places of the list that hold a valid index, in the order of the list; then, in their own order, those whose id none of these has |
| Rerank.RerankIsPermutationIff | src/qortia/recall_rerank.py:55-59 | for results that are pairwise different, reranking permutes them if and only if no valid index is repeated and no result left out of the list shares its id with one that is named |
| Rerank.DistinctIdsPermuteIff | src/qortia/recall_rerank.py:55-59 | where all ids differ: if and only if no valid index is repeated |
| Rerank.TwinIsDropped | src/qortia/recall_rerank.py:57-58 | two results with one id, of which a list without repeats loses the second |
| Budget.ApplyCharBudget | src/qortia/recall_helpers.py:221-231 | the prefix kept ends where the stated stopping rule first applies |
| Budget.RecallFillsBudget | src/qortia/recall_helpers.py:221-231 | what is kept stays within the budget or is a single result, is never empty, and leaves out the next result only where the budget is spent or would be exceeded by it |
| Budget.ExplicitBudgetCounts | src/qortia/recall_helpers.py:177-190 | a budget that the request names counts, even when it is zero; the default applies only without one |
| Budget.BudgetMemories | src/qortia/remember.py:502-554 | what is kept is a prefix of the merged importance order, restored bucket by bucket; everything without a positive budget |
| Budget.NoDroppedOutranksKept | src/qortia/remember.py:517-538 | every kept entry precedes every dropped one in the importance order, across buckets |
| Budget.RestoreIsSubsequence | src/qortia/remember.py:543-554 | each bucket comes back as a subsequence of itself, made of exactly the kept entries |
| Budget.KeptWholeIff | src/qortia/remember.py:543-554 | the buckets come back unchanged if and only if every entry of every bucket is kept |
| Budget.CutsAgreeIff | src/qortia/recall_helpers.py:221-231 | for a positive budget the two loops keep the same prefix if and only if no later entry is empty with the budget just spent, or exceeds the budget alone after nothing but empty entries |
| Budget.CutsAgreeOnNonEmpty | src/qortia/recall_helpers.py:208-213 | on entries of positive length the two loops agree |
| Budget.CutsPartOnEmpty | src/qortia/remember.py:531-536 | an input on which they do not |
| Budget.ContextStaysWithin | src/qortia/remember.py:531-536 | the context stays within its budget unless a single non-empty entry exceeds it alone |
| RecallPipeline.FuseWithGraph | src/qortia/recall.py:734-759 | the fusion with the links of the query's entities and, unless a round was cut, of exactly the entities one or two hops away |
| RecallPipeline.ChooseKnowledge | src/qortia/recall.py:761-772 | the diversified chunks after the keyword boost, or the first four when the query has no embedding |
| RecallPipeline.HybridRecall | src/qortia/recall.py:643-785 | how the stages compose: partition with repeats kept, fusion, expansion, choice, summary on the first result |
| RecallPipeline.Finish | src/qortia/recall.py:822-834 | the response is the reranked results, cut as the budget says |
| RecallResponse.FinishFollowsList | src/qortia/recall.py:820-831 | with a rerank, place by place: first the results named by the list in its order, then the others in theirs; all of them without a budget, a prefix with one |
| RecallResponse.FinishKeepsOrder | src/qortia/recall.py:820-831 | without a rerank, or with a single result or a failed call, the results as they were, or a non-empty prefix that fits the budget unless it is a single result |
| RecallResponse.EachMemoryOnce | src/qortia/recall.py:676-785 | every memory that a search found is among the results, no memory is there twice, and linked ones and then chunks come after those found |
| RecallResponse.FirstChunk | src/qortia/recall.py:761-769 | for an embedded query the first chunk chosen is the first one found whose score, raised by its keyword boost, reaches 0.30 |
| RecallResponse.ChosenScoreEnough | src/qortia/recall.py:761-769 | at most four chunks are chosen, each a chunk found with its raised score, which is at least 0.30 |
| RecallResponse.ChosenDiffer | src/qortia/recall.py:765-769 | any two of them that carry embeddings have a cosine below 0.85 |
| RecallResponse.WeighedAlike | src/qortia/recall_helpers.py:259-266 | with the default weight, relevance and redundancy count alike |
| RecallResponse.BoostRaises | src/qortia/recall.py:762-764 | the keyword boost at most doubles a positive score and raises it if and only if a counted word of the query occurs in the chunk |
| RecallResponse.FullBoostIff | src/qortia/recall_helpers.py:234-247 | the whole boost is given if and only if the query has counted words and all of them occur |
| RecallResponse.SummaryOnFirst | src/qortia/recall.py:781-783 | the entity summary goes onto the first result and changes nothing else |
| RecallResponse.UnembeddedIsPlain | src/qortia/recall.py:734-779 | without an embedding of the query: no walk, no expansion, and the first four chunks found |
| RecallResponse.WalkAddsLinks | src/qortia/recall.py:734-759 | the walk adds only memories linked to nearby entities, and none when the entities of the query have no links |
| RecallResponse.NearbyIsTwoHops | src/qortia/recall.py:754-759 | the nearby entities are those, not named in the query, that a chain of at most two hops reaches |
| RecallPipeline.PartitionInOrder | src/qortia/recall.py:676-698 | memories and chunks keep the order of the searches and of their results; a search that failed contributes nothing |
| RecallPipeline.ChunkTwiceIff | src/qortia/recall.py:761-785 | among the results of the pipeline a chunk comes back twice if and only if the first eligible chunk has no embedding and the first that has one is the same chunk; without an embedding of the query, if and only if it is twice among the first four found |
| RecallPipeline.HybridKeeps | src/qortia/recall.py:643-785 | whatever holds of all results found, all memories linked and all chunks, holds of all results of the pipeline |
| RecallPipeline.HybridIsAsOf | src/qortia/recall.py:643-785 | with a point in time, every private result that the link expansion did not bring in comes from a row valid at that time; without an embedding of the query it brings in none |
| RecallPipeline.Recall | src/qortia/recall.py:789-834 | without a point in time, every private or organisation result comes, on every path, from a row whose expiry and `valid_until` have not passed; with one, on the hybrid path, every private result not linked comes from a row valid then |
| RecallPipeline.PointInTimeClauses | src/qortia/recall_helpers.py:81-95 | which searches honour a point in time, which may return rows ended since, and that the link expansion does not honour it |
| Reflection.GuardCountsWhatPruneTouches | src/qortia/reflect.py:201-250 | where consolidated rows have no end of validity and are knowledge, the rows the guard counts are the rows the prune may touch |
| Reflection.ActiveIdsCount | src/qortia/reflect.py:194-197 | the guard counts every UPDATE and RETAIN entry, known or unknown, repeated or not |
| Reflection.EndedIffEnoughNamed | src/qortia/reflect.py:199-250 | in numbers: a consolidated row not named is ended if and only if existing rows were seen and the reply has at least one naming entry and no fewer than half as many as there are consolidated rows |
| Reflection.SurvivorsAreNamed | src/qortia/reflect.py:236-250 | what a prune leaves consolidated is exactly what the reply names |
| Reflection.AppliedIsSound | src/qortia/reflect.py:236-315 | a reflection write keeps that state |
| Reflection.EmptiesIff | src/qortia/reflect.py:194-315 | a transaction empties a non-empty knowledge if and only if it commits, prunes, writes nothing and names no consolidated row |
| Reflection.UnknownIdWipes | src/qortia/reflect.py:194-250 | one unknown id is enough for that |
| Reflection.HalfSurvivesPrune | src/qortia/reflect.py:199-250 | with ids distinct and consolidated, at least half survive the prune |
| Reflection.EndsValidityIff | src/qortia/reflect.py:238-290 | a row that leaves the consolidated ones gets an end of validity if and only if it was pruned; an updated one stays without |
| Reflection.Conservation | src/qortia/reflect.py:252-315 | under the same ids, after a transaction that commits the consolidated rows are the survivors plus the CREATEs not skipped as duplicates; after one that aborts, as many as before |
| Reflection.HalfSurvivesWrite | src/qortia/reflect.py:194-315 | at least half the consolidated rows after the whole transaction |
| Reflection.ConsolidatedAfter | src/qortia/reflect.py:256-315 | the consolidated rows afterwards, as a set: survivors without the superseded, and the inserted |
| Reflection.RowsAndTrailAgree | src/qortia/reflect.py:315-356 | rows inserted, audit entries and the reported count are the same number, and the entries name exactly the rows |
| Reflection.InsertedRowIsEntry | src/qortia/reflect.py:299-316 | an inserted row has the type, content and importance of its entry, and is consolidated, active and without an end of validity |
| Reflection.TrailInOrder | src/qortia/reflect.py:333-347 | the audit entries follow the written entries in order, and that of an update names the row it replaces |
| Reflection.AbortsOn | src/qortia/reflect.py:194-316 | a malformed id, or an importance or stability outside [0, 1] on a written entry, leaves the store as it was |
| Reflection.InUnitCommits | src/qortia/reflect.py:194-316 | with well-formed ids and all values within [0, 1] the transaction commits |
| Reflection.InsertedInUnit | src/qortia/reflect.py:299-316 | committed importances lie in [0, 1] |
| Reflection.InsertedContentsDiffer | src/qortia/reflect.py:260-264 | inserted contents are pairwise distinct after normalisation |
| Reflection.ContentIsWritten | src/qortia/reflect.py:256-264 | a content skipped as a duplicate was written by an earlier entry of the reply |
| Reflection.OthersUntouched | src/qortia/reflect.py:236-290 | no row of another agent changes |
| Remembering.StoredRows | src/qortia/remember.py:201-278 | old rows stay as they are and every new row is that of an item |
| Remembering.SkippedIff | src/qortia/remember.py:229-246 | an item is skipped if and only if it is episodic or experiential and an active row of the agent with the same content is less than 24 hours old |
| Remembering.RemembersIff | src/qortia/remember.py:196-246 | a decision or a lesson is stored if and only if the agent is active, and an inactive agent changes nothing |
| Remembering.NewMemoryIsItem | src/qortia/remember.py:222-278 | a new row has the columns of its item, and expires after its time to live if and only if it is short-term and has one |
| Remembering.EpisodicsAreCounted | src/qortia/remember.py:292-307 | what is added to the counter is the number of episodic rows inserted |
| Remembering.ImportanceRanks | src/qortia/models.py:17-24 | how the six types rank and compare |
| Remembering.TrailInOrder | src/qortia/remember.py:281-293 | the audit entries follow the inserted items in order |
| Remembering.StoringKeepsApart | src/qortia/remember.py:230-246 | two active episodic or experiential rows with the same content are at least 24 hours apart |
| Remembering.TrailNamesRows | src/qortia/remember.py:281-293 | the audit entries name exactly the inserted rows |
| EntityIndex.GraphOneAgrees | src/qortia/entity_graph.py:217-257 | indexing one memory keeps the index equal to a scan of the graphed memories, with no memory listed twice |
| EntityIndex.GraphedAgrees | src/qortia/entity_graph.py:206-257 | so does a batch |
| EntityIndex.UnlistedLists | src/qortia/remember.py:463-474 | forgetting removes the memory from every entity and nothing else |
| EntityIndex.NamedGains | src/qortia/entity_graph.py:217-235 | an entity newly named gets the memory at the end of its list, and the type of the first mention |
| EntityIndex.UnnamedStays | src/qortia/entity_graph.py:217-235 | entities not named, and those that list the memory already, stay as they are |
| EntityIndex.EntityLinksAreScan | src/qortia/recall.py:717-731 | the private links recall reads, restricted to live memories, equal the scan they replace if and only if the agent has the default clearance or the scan finds nothing |
| EntityIndex.LowClearanceMisses | src/qortia/recall.py:717-731 | a store in which an agent of lower clearance misses its only memory |
| LinkTable.LinkedPairs | src/qortia/links.py:81-95 | old links keep their similarity and exactly the given pairs are added, both ways |
| LinkTable.LinkedSimilarity | src/qortia/links.py:81-95 | a new link carries the similarity found for its pair, the first one when the pair came twice |
| LinkTable.LinkedKeeps | src/qortia/links.py:41-95 | links stay symmetric with equal similarity at or above the threshold and without self-links |
| LinkTable.UnlinkedKeeps | src/qortia/remember.py:475-484 | forgetting keeps that, removes exactly the links of the memory, and leaves the others with their similarity |
| MemoryStore.Store.Remember | src/qortia/remember.py:190-307 | the new state of all tables, and an answer that names for each item a row with its content |
| MemoryStore.Store.CollectActiveIds | src/qortia/reflect.py:194-197 | the ids of UPDATE and RETAIN in order with repeats, or failure when one is no UUID |
| MemoryStore.Store.Prune | src/qortia/reflect.py:199-250 | the guarded prune |
| MemoryStore.Store.WriteAll | src/qortia/reflect.py:252-315 | the write loop: superseded and inserted rows, de-duplication, failure when a column check fails |
| MemoryStore.Store.WriteReflections | src/qortia/reflect.py:175-356 | the new state of all tables, unchanged when the transaction aborts, and the count and counter returned |
| MemoryStore.Store.PopulateGraphBatch | src/qortia/entity_graph.py:200-257 | the index and the flags after a batch |
| MemoryStore.Store.UpsertMemoryLinks | src/qortia/links.py:68-97 | the link table afterwards |
| MemoryStore.Store.Forget | src/qortia/remember.py:412-499 | rows, index, links and audit trail afterwards, and the error cases |
| StoreRuns.StepKeepsValid | src/qortia/reflect.py:175-356 | every step of every agent keeps all invariants of the store |
| StoreRuns.RunKeepsValid | src/qortia/remember.py:190-307 | so does every run |
| StoreRuns.IndexAgreesAfterRun | src/qortia/recall.py:717-731 | after any run from an empty store no memory is listed twice, and recall's link set equals the scan if and only if the agent has the default clearance or the scan finds nothing |
| StoreRuns.ForgetRemoves | src/qortia/remember.py:460-484 | after a forget no row, entity list or link names the memory |
| StoreRuns.ForgottenForGood | src/qortia/remember.py:460-484 | nor in any later state of any run |
| StoreRuns.ForgetFrame | src/qortia/remember.py:412-499 | a row is removed if and only if its own, active agent asks for it, and every other row and all agents stay as they are |
| StoreRuns.ForgetKeepsTraces | src/qortia/remember.py:463-484 | index entries and links of other memories stay, links with their similarity |
| StoreRuns.MaintenanceFrame | src/qortia/reflect.py:474-507 | a purge removes exactly the expired short-term rows, and archiving changes nothing but the tier |
| KnowledgeSurvival.OtherEventsKeepKnowledge | src/qortia/reflect.py:474-505 | only committed reflections of the agent itself, and its forgetting one of them, change its consolidated rows |
| KnowledgeSurvival.KnowledgeSurvives | src/qortia/reflect.py:194-315 | over any run in which committed replies name distinct consolidated rows, the consolidated rows left after k of them, with those the agent itself forgot, are at least 1/2^k of those at the start |
| KnowledgeSurvival.KnowledgeNeverVanishes | src/qortia/reflect.py:194-315 | that bound is c/2^k rounded up, so a non-empty knowledge never becomes empty unless the agent itself forgets that many rows |
| ReflectionCounter.CounterIsMaxSuffix | src/qortia/reflect.py:318-328 | from zero, the counter is the largest sum over suffixes of the run of episodics inserted minus the threshold for each reflection |
| ReflectionCounter.IdleReflectionsArePaidFor | src/qortia/reflect.py:679-696 | threshold times idle reflections, plus the counter, never exceeds the start value plus the episodics inserted |
| ReflectionCounter.IdleReflectionsAreBounded | src/qortia/reflect.py:679-696 | from zero, idle reflections are at most the episodics divided by the threshold, rounded down |
| Staleness.ReplacedIsHiddenIff | src/qortia/reflect.py:238-290 | a row that a write takes out of the consolidated ones is hidden from the private searches from then on if and only if it was pruned |
| Staleness.PurgedWasHidden | src/qortia/reflect.py:495-503 | a purge deletes only rows that the private searches no longer show |
| Staleness.OldShowsBesideNew | src/qortia/reflect.py:282-315 | a store and a reply after which the row updated and its replacement both satisfy the search clauses, though only the new one is consolidated |
| Staleness.UpdatedRowIsNeverEnded | src/qortia/reflect.py:282-290 | a row replaced by an UPDATE has no `valid_until` in any later state of any run in which it exists |
| Confidence.Ledger.RecordWorkOrderOutcome | src/qortia/recall.py:540-600 | the confidences, logged reads and outcome records afterwards |
| Confidence.Ledger.LogSessionReads | src/qortia/recall.py:605-637 | the private results are logged against the work order, in order |
| Confidence.ConfidenceFollowsOutcomes | src/qortia/recall.py:562-585 | over any run of recalls and reports, a memory's confidence is determined by its start value and the outcomes of the work orders that had recalled it |
| Confidence.ImplicatedIff | src/qortia/recall.py:562-571 | over any run, a work order implicates a memory if and only if some recall under it returned that memory as a private one |
| Confidence.LoggedArePrivate | src/qortia/recall.py:615-632 | a recall logs the ids of its private results and no others |
| Confidence.RunStaysInRange | src/qortia/recall.py:573-585 | it stays in [0.10, 1.0] |
| Confidence.SharedOutcomesKeepOrder | src/qortia/recall.py:573-585 | memories with the same outcomes keep their order |
| Confidence.HistoryCollapses | src/qortia/recall.py:573-585 | however often floor and cap were met, the value is the plain product held between what the floor and the cap themselves became |
| Confidence.StartIsForgotten | src/qortia/recall.py:573-585 | a history that takes the floor and the cap to one value takes every start there |
| Confidence.FiveFailuresForget | src/qortia/recall.py:573-585 | five critical failures in a row erase whatever came before them |
| Confidence.FailuresMultiply | src/qortia/recall.py:555-585 | failures of both kinds in any order give the product or the floor |
| Confidence.CriticalFailures | src/qortia/recall.py:555-585 | n critical failures give c * 0.6^n or the floor |
| Confidence.FloorAfterFive | src/qortia/recall.py:555-585 | from 1.0 the floor is reached at the fifth critical failure, not before |
| Confidence.FloorAfterFifteen | src/qortia/recall.py:555-585 | by minor failures it is reached at the fifteenth, not before |
| Confidence.CapAfterFortyEight | src/qortia/recall.py:555-585 | from the floor the cap is reached at the forty-eighth success, not before |
| Confidence.FirstRecordStands | src/qortia/recall.py:587-600 | a work order keeps the outcome first recorded for it |
| Confidence.RepeatIsHarmlessIff | src/qortia/recall.py:571-600 | a repeated report changes nothing if and only if every implicated memory is already at the end of its range |
| Confidence.RepeatLowersAgain | src/qortia/recall.py:571-600 | a ledger in which a second report of one failure lowers a confidence again |
| SpanMatching.FirstMatch | evals/run_ner_eval.py:110-118 | the first gold entity that is free and matches |
| SpanMatching.MatchExample | evals/run_ner_eval.py:107-118 | the predictions are served in turn, and the counts are those of the matching this gives |
| SpanMatching.ServedIsUnique | evals/run_ner_eval.py:107-118 | there is one such matching |
| SpanMatching.MaximalIsHalf | evals/run_ner_eval.py:107-118 | a maximal matching has at least half the pairs of any one-to-one matching |
| SpanMatching.HalfIsTight | evals/run_ner_eval.py:107-118 | predictions and gold entities on which the matcher gets exactly half |
| SpanMatching.HalfOfBest | evals/run_ner_eval.py:101-118 | summed over all examples, at least half of the best possible, for any match relation |
| SpanMatching.TotalsAreOrdered | evals/run_ner_eval.py:101-118 | typed matches <= matches <= both predicted and gold |
| SpanMatching.TotalsCountAll | evals/run_ner_eval.py:101-107 | the totals count all predictions, all gold entities, and the examples with gold but no prediction |
| SpanMatching.ReportEquations | evals/run_ner_eval.py:119-132 | each score times its denominator is its count, and zero where that is zero |
| SpanMatching.F1Equation | evals/run_ner_eval.py:121-121 | F1 times the sum of precision and recall is twice their product; it is zero with either, and equal to both where they agree |
| SpanMatching.TypesCorrespond | evals/run_ner_eval.py:63-115 | which predicted type each gold type asks for |
| SpanMatching.ScoreLanguage | evals/run_ner_eval.py:98-132 | every score is a proportion, F1 lies between precision and recall, and the recall is at least half of that of any matching |

## Left out

- MemoryStore.Store.PopulateGraphBatch: does not index organisation memories, because their upserts change the
  entities without clearing `is_graphed`, so an index of them does not agree with any scan.
- MemoryStore.Store.Forget: answers that an organisation memory is not found where the original checks the role
  and may delete it, because the table of organisation memories is not part of this model.
- RecallPipeline.ChunkTwiceIff: asks for an embedding of the query, if there is one, that is not all zeros, because
  the database's cosine distance to the zero vector is not a number.
- HTTP routing, authentication, telemetry, the embedding and chat clients, and the text of prompts. A model
  reply is any list of actions that passes the validation in src/qortia/reflect.py:382-402.
- Row-level security, full-text ranking, vector indexes and the ORDER BY of the searches. One tenant is modelled.
- Lower-casing and the text match of the extraction evaluation: the keyword boost holds for any lower-casing, and the
  matcher for any match relation.
- spaCy and language detection: the entities of a memory are part of the memory.
- The heading pattern: headings are any ordered list of disjoint spans.
- Rounding: floats are reals, so the values and comparisons of the original can differ in the last digits.
- Organisation memories in the entity index and in `forget`; they change their entities without clearing
  `is_graphed`, so the index theorems are about private memories.
- Entity summaries, apart from the one recall shows.
- The embedding batch and its near-duplicate archiving. Archiving is modelled for any set of rows.
- Interleavings inside a transaction. The graph worker releases its row claims before it processes the rows,
  so a forget between claim and processing can leave an index entry of a deleted memory; the theorems are about
  atomic steps.
- The last-activity column of agents, which only delays the idle trigger: the bound on idle reflections
  holds for any timing.
- The evaluation router, which inserts rows directly and can break the invariant that consolidated rows have no
  end of validity.
- Failures that are logged and swallowed while an outcome or session reads are recorded; they leave the tables
  as they were.
- The endpoint filters by type, entity and language, and the result limits: they only shrink the search answers.
- The recall counters written after a response.
- Knowledge ingestion around the splitter, weekly summaries, configuration, leader election and the other
  evaluation scripts: I/O drivers around library calls.
