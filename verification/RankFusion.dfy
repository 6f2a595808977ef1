/**
 * Rank fusion of the search results (src/qortia/recall_helpers.py): harmonic scores by how often
 * a result repeats, times its importance, times the entity boost, sorted.
 */
module RankFusion {
  import opened Wrappers
  import opened Results
  import opened Collections
  import opened Ranking
  import opened Arithmetic

  const ENTITY_BOOST := 1.5

  // ---- Importance ----

  /** log1p: any monotone function that is zero at zero. */
  ghost predicate IsLog1p(log1p: nat -> real) {
    log1p(0) == 0.0 && forall m, n :: 0 <= m <= n ==> log1p(m) <= log1p(n)
  }

  /** A raw importance, capped, scaled by the confidence, and kept within [0, 1]. */
  function Scaled(raw: real, confidence: real): (imp: real)
    ensures 0.0 <= imp <= 1.0
  {
    Max(0.0, Min(1.0, Min(1.0, raw) * confidence))
  }

  function RecencyBoost(lastRecalledDays: Option<int>): real {
    if lastRecalledDays.Some? then Max(0.0, 1.0 - lastRecalledDays.value as real / 30.0) * 0.2 else 0.0
  }

  /** Importance raised by frequent and recent recall, scaled by confidence, kept within [0, 1]. */
  function DynamicImportance(log1p: nat -> real, base: real, recallCount: nat, lastRecalledDays: Option<int>,
                             confidence: real): (imp: real)
    ensures 0.0 <= imp <= 1.0
  {
    Scaled(base + log1p(recallCount) / 10.0 + RecencyBoost(lastRecalledDays), confidence)
  }

  /** The importance of a result; one half where none is recorded. */
  function ImportanceOf(log1p: nat -> real, r: RecallResult): real {
    DynamicImportance(log1p, if r.importance.Some? then r.importance.value else 0.5,
                      r.recallCount, r.lastRecalledDays, r.confidence)
  }

  function Importances(log1p: nat -> real): RecallResult -> real {
    (r: RecallResult) => ImportanceOf(log1p, r)
  }

  lemma ScaledMonotone(x: real, y: real, c: real)
    requires x <= y && c >= 0.0
    ensures Scaled(x, c) <= Scaled(y, c)
  {
    var p, q := Min(1.0, x) * c, Min(1.0, y) * c;
    ScaleMonotone(Min(1.0, x), Min(1.0, y), c, p, q);
    assert Scaled(x, c) == Max(0.0, Min(1.0, p)) && Scaled(y, c) == Max(0.0, Min(1.0, q));
  }

  /** Recalling a memory more often never lowers its importance. */
  lemma ImportanceMonotone(log1p: nat -> real, base: real, m: nat, n: nat, days: Option<int>, confidence: real)
    requires IsLog1p(log1p) && m <= n && confidence >= 0.0
    ensures DynamicImportance(log1p, base, m, days, confidence) <= DynamicImportance(log1p, base, n, days, confidence)
  {
    ScaledMonotone(base + log1p(m) / 10.0 + RecencyBoost(days), base + log1p(n) / 10.0 + RecencyBoost(days),
                   confidence);
  }

  /** Everything that counts for the importance is the same, but `a` was recalled at least as often. */
  predicate RecalledMore(a: RecallResult, b: RecallResult) {
    && a.importance == b.importance && a.lastRecalledDays == b.lastRecalledDays
    && a.confidence == b.confidence && a.confidence >= 0.0
    && b.recallCount <= a.recallCount
  }

  /** In a list sorted by importance, a result recalled more often is never put behind one it preceded. */
  lemma RecalledMoreStaysAhead(log1p: nat -> real, results: seq<RecallResult>, out: seq<RecallResult>,
                               a: RecallResult, b: RecallResult)
    requires IsLog1p(log1p) && Distinct(results) && IsRanking(results, Importances(log1p), out)
    requires a in results && b in results && a != b && RecalledMore(a, b) && Before(results, a, b)
    ensures Before(out, a, b)
  {
    ImportanceMonotone(log1p, if a.importance.Some? then a.importance.value else 0.5,
                       b.recallCount, a.recallCount, a.lastRecalledDays, a.confidence);
    RankingOrder(results, Importances(log1p), out, a, b);
  }

  // ---- Scores ----

  function Count(results: seq<RecallResult>, id: Id): nat {
    if results == [] then 0
    else Count(results[..|results| - 1], id) + if results[|results| - 1].id == id then 1 else 0
  }

  /** The last result with the given id. */
  function Last(results: seq<RecallResult>, id: Id): (r: RecallResult)
    requires id in IdsOf(results)
    ensures r in results && r.id == id
  {
    var n := |results| - 1;
    if results[n].id == id then results[n]
    else
      assert results == results[..n] + [results[n]];
      Last(results[..n], id)
  }

  /** The distinct ids in order of first appearance. */
  function FirstSeen(results: seq<RecallResult>): seq<Id> {
    if results == [] then []
    else
      var n := |results| - 1;
      var before := FirstSeen(results[..n]);
      if results[n].id in before then before else before + [results[n].id]
  }

  /** 1/(k+1) + .. + 1/(k+m). */
  function Harmonic(k: nat, m: nat): real {
    if m == 0 then 0.0 else Harmonic(k, m - 1) + 1.0 / (k + m) as real
  }

  function Boost(links: set<Id>, id: Id): real {
    if id in links then ENTITY_BOOST else 1.0
  }

  function Weighted(harmonic: real, importance: real, boost: real): real {
    harmonic * importance * boost
  }

  /** The final score of each id among the results. */
  function ScoreOf(results: seq<RecallResult>, links: set<Id>, k: nat, imp: RecallResult -> real): Id -> real {
    (id: Id) =>
      if id in IdsOf(results) then Weighted(Harmonic(k, Count(results, id)), imp(Last(results, id)), Boost(links, id))
      else 0.0
  }

  /** The result of a fusion: the ids ranked by score, each shown by its last occurrence. */
  ghost predicate IsFusion(results: seq<RecallResult>, score: Id -> real, fused: seq<RecallResult>) {
    && IsRanking(FirstSeen(results), score, Ids(fused))
    && forall i :: 0 <= i < |fused| ==> fused[i].id in IdsOf(results) && fused[i] == Last(results, fused[i].id)
  }

  // ---- Facts about the scores ----

  lemma {:induction false} FirstSeenIsDistinct(results: seq<RecallResult>)
    ensures Distinct(FirstSeen(results)) && forall id :: id in FirstSeen(results) <==> id in IdsOf(results)
  {
    if results == [] {
    } else {
      var n := |results| - 1;
      FirstSeenIsDistinct(results[..n]);
      IdsStep(results, n);
      assert results[..n + 1] == results;
    }
  }

  lemma IdsStep(results: seq<RecallResult>, i: nat)
    requires i < |results|
    ensures IdsOf(results[..i + 1]) == IdsOf(results[..i]) + {results[i].id}
  {
    assert results[..i + 1] == results[..i] + [results[i]];
  }

  /** Positions do not matter, only how often an id repeats: m terms between 1/(k+m) and 1/(k+1). */
  lemma HarmonicBounds(k: nat, m: nat)
    requires m > 0
    ensures m as real / (k + m) as real <= Harmonic(k, m) <= m as real / (k + 1) as real
  {
    HarmonicBelow(k, m, k + m);
    HarmonicAbove(k, m);
  }

  lemma {:induction false} HarmonicBelow(k: nat, m: nat, n: nat)
    requires 0 < k + m <= n
    ensures m as real / n as real <= Harmonic(k, m)
  {
    if m == 0 {
    } else {
      if m > 1 { HarmonicBelow(k, m - 1, n); }
      FractionOrder(n as real, (k + m) as real, 1.0);
      assert m as real / n as real == (m - 1) as real / n as real + 1.0 / n as real;
    }
  }

  lemma {:induction false} HarmonicAbove(k: nat, m: nat)
    ensures Harmonic(k, m) <= m as real / (k + 1) as real
  {
    if m == 0 {
    } else {
      HarmonicAbove(k, m - 1);
      FractionOrder((k + m) as real, (k + 1) as real, 1.0);
      assert m as real / (k + 1) as real == (m - 1) as real / (k + 1) as real + 1.0 / (k + 1) as real;
    }
  }

  // ---- The method ----

  lemma CountStep(results: seq<RecallResult>, i: nat, id: Id)
    requires i < |results|
    ensures Count(results[..i + 1], id) == Count(results[..i], id) + if results[i].id == id then 1 else 0
  {
    assert results[..i + 1][..i] == results[..i];
  }

  lemma {:induction false} CountAbsent(results: seq<RecallResult>, id: Id)
    ensures Count(results, id) == 0 <==> id !in IdsOf(results)
  {
    if results == [] {
    } else {
      var n := |results| - 1;
      CountAbsent(results[..n], id);
      IdsStep(results, n);
      assert results[..n + 1] == results;
    }
  }

  lemma FirstSeenStep(results: seq<RecallResult>, i: nat)
    requires i < |results|
    ensures FirstSeen(results[..i + 1]) ==
            FirstSeen(results[..i]) + if results[i].id in IdsOf(results[..i]) then [] else [results[i].id]
  {
    assert results[..i + 1][..i] == results[..i];
    FirstSeenIsDistinct(results[..i]);
  }

  lemma LastStep(results: seq<RecallResult>, i: nat, id: Id)
    requires i < |results| && id in IdsOf(results[..i + 1])
    ensures results[i].id == id ==> Last(results[..i + 1], id) == results[i]
    ensures results[i].id != id ==> id in IdsOf(results[..i]) && Last(results[..i + 1], id) == Last(results[..i], id)
  {
    IdsStep(results, i);
    assert results[..i + 1][..i] == results[..i];
  }

  ghost predicate CountsIds(results: seq<RecallResult>, positions: map<Id, nat>) {
    positions.Keys == IdsOf(results) && forall id :: id in positions ==> positions[id] == Count(results, id)
  }

  ghost predicate ScoresIds(results: seq<RecallResult>, k: nat, scores: map<Id, real>) {
    scores.Keys == IdsOf(results) && forall id :: id in scores ==> scores[id] == Harmonic(k, Count(results, id))
  }

  ghost predicate ShowsIds(results: seq<RecallResult>, byId: map<Id, RecallResult>) {
    byId.Keys == IdsOf(results) && forall id :: id in byId ==> byId[id] == Last(results, id)
  }

  /** What the loop knows about the results it has seen. */
  ghost predicate Tallied(results: seq<RecallResult>, k: nat, scores: map<Id, real>, byId: map<Id, RecallResult>,
                          positions: map<Id, nat>) {
    CountsIds(results, positions) && ScoresIds(results, k, scores) && ShowsIds(results, byId)
  }

  lemma CountsStep(results: seq<RecallResult>, i: nat)
    requires i < |results|
    ensures forall id :: id in IdsOf(results[..i + 1]) ==>
              Count(results[..i + 1], id) == Count(results[..i], id) + if results[i].id == id then 1 else 0
  {
    forall id | id in IdsOf(results[..i + 1])
      ensures Count(results[..i + 1], id) == Count(results[..i], id) + if results[i].id == id then 1 else 0
    {
      CountStep(results, i, id);
    }
  }

  lemma CountsIdsStep(results: seq<RecallResult>, i: nat, positions: map<Id, nat>)
    requires i < |results| && CountsIds(results[..i], positions)
    ensures CountsIds(results[..i + 1], positions[results[i].id := Count(results[..i], results[i].id) + 1])
  {
    IdsStep(results, i);
    CountsStep(results, i);
  }

  lemma ScoresIdsStep(results: seq<RecallResult>, i: nat, k: nat, scores: map<Id, real>)
    requires i < |results| && ScoresIds(results[..i], k, scores)
    ensures ScoresIds(results[..i + 1], k, scores[results[i].id := Harmonic(k, Count(results[..i], results[i].id) + 1)])
  {
    IdsStep(results, i);
    CountsStep(results, i);
  }

  lemma ShowsIdsStep(results: seq<RecallResult>, i: nat, byId: map<Id, RecallResult>)
    requires i < |results| && ShowsIds(results[..i], byId)
    ensures ShowsIds(results[..i + 1], byId[results[i].id := results[i]])
  {
    IdsStep(results, i);
    var byId' := byId[results[i].id := results[i]];
    forall id | id in byId' ensures byId'[id] == Last(results[..i + 1], id) { LastStep(results, i, id); }
  }

  /** One more occurrence of a key: its position and its score. */
  method CountOne(results: seq<RecallResult>, i: nat, k: nat, scores: map<Id, real>, positions: map<Id, nat>)
    returns (pos: nat, score: real)
    requires i < |results| && CountsIds(results[..i], positions) && ScoresIds(results[..i], k, scores)
    ensures pos == Count(results[..i], results[i].id) + 1 && score == Harmonic(k, pos)
  {
    var key := results[i].id;
    CountAbsent(results[..i], key);
    pos := (if key in positions then positions[key] else 0) + 1;
    score := (if key in scores then scores[key] else 0.0) + 1.0 / (k + pos) as real;
  }

  /** The scores the loop ends with, times importance and boost. */
  function FinalScore(scores: map<Id, real>, byId: map<Id, RecallResult>, links: set<Id>,
                      imp: RecallResult -> real): Id -> real {
    (id: Id) => if id in scores && id in byId then Weighted(scores[id], imp(byId[id]), Boost(links, id)) else 0.0
  }

  lemma FinalScoreIsScore(results: seq<RecallResult>, links: set<Id>, k: nat, imp: RecallResult -> real,
                          scores: map<Id, real>, byId: map<Id, RecallResult>, positions: map<Id, nat>, id: Id)
    requires Tallied(results, k, scores, byId, positions)
    ensures FinalScore(scores, byId, links, imp)(id) == ScoreOf(results, links, k, imp)(id)
  {
  }

  method RrfFuse(results: seq<RecallResult>, links: set<Id>, k: nat, imp: RecallResult -> real)
    returns (fused: seq<RecallResult>)
    ensures IsFusion(results, ScoreOf(results, links, k, imp), fused)
  {
    if results == [] { return []; }
    var scores: map<Id, real>, byId: map<Id, RecallResult>, positions: map<Id, nat> := map[], map[], map[];
    var keys: seq<Id> := [];
    for i := 0 to |results|
      invariant Tallied(results[..i], k, scores, byId, positions)
      invariant keys == FirstSeen(results[..i])
    {
      var key := results[i].id;
      var pos, score := CountOne(results, i, k, scores, positions);
      CountsIdsStep(results, i, positions);
      ScoresIdsStep(results, i, k, scores);
      ShowsIdsStep(results, i, byId);
      FirstSeenStep(results, i);
      if key !in scores { keys := keys + [key]; }
      positions, scores, byId := positions[key := pos], scores[key := score], byId[key := results[i]];
    }
    assert results[..|results|] == results;
    fused := RankKeys(results, links, k, imp, keys, scores, byId, positions);
  }

  /** sorted(scores.keys(), key=final_score, reverse=True), shown as results. */
  method RankKeys(ghost results: seq<RecallResult>, links: set<Id>, ghost k: nat, imp: RecallResult -> real,
                  keys: seq<Id>, scores: map<Id, real>, byId: map<Id, RecallResult>, ghost positions: map<Id, nat>)
    returns (fused: seq<RecallResult>)
    requires Tallied(results, k, scores, byId, positions) && keys == FirstSeen(results)
    ensures IsFusion(results, ScoreOf(results, links, k, imp), fused)
  {
    var final := FinalScore(scores, byId, links, imp);
    var ranked := SortDescending(keys, final);
    SortRanks(keys, final);
    forall id | id in keys ensures final(id) == ScoreOf(results, links, k, imp)(id) {
      FinalScoreIsScore(results, links, k, imp, scores, byId, positions, id);
    }
    RankingCongruent(keys, final, ScoreOf(results, links, k, imp), ranked);
    FirstSeenIsDistinct(results);
    forall i | 0 <= i < |ranked| ensures ranked[i] in byId { MultisetMember(ranked, keys, ranked[i]); }
    fused := seq(|ranked|, i requires 0 <= i < |ranked| => byId[ranked[i]]);
    assert Ids(fused) == ranked;
  }

  // ---- What the fusion means ----

  /** Every distinct id appears exactly once. */
  lemma FusionListsEachOnce(results: seq<RecallResult>, score: Id -> real, fused: seq<RecallResult>)
    requires IsFusion(results, score, fused)
    ensures Distinct(Ids(fused)) && IdsOf(fused) == IdsOf(results)
    ensures forall r :: r in fused ==> r in results
  {
    FirstSeenIsDistinct(results);
    DistinctByMultiset(FirstSeen(results), Ids(fused));
    forall id | id in IdsOf(results) ensures id in IdsOf(fused) {
      MultisetMember(FirstSeen(results), Ids(fused), id);
      var i :| 0 <= i < |Ids(fused)| && Ids(fused)[i] == id;
      assert fused[i].id == id;
    }
  }

  lemma {:induction false} CountByMultiset(a: seq<RecallResult>, b: seq<RecallResult>, id: Id)
    requires multiset(a) == multiset(b)
    ensures Count(a, id) == Count(b, id)
    decreases |a|
  {
    if a == [] {
      assert |multiset(b)| == 0;
    } else {
      var n := |a| - 1;
      MultisetMember(a, b, a[n]);
      var p :| 0 <= p < |b| && b[p] == a[n];
      MultisetWithout(a, n);
      MultisetWithout(b, p);
      assert Without(a, n) == a[..n];
      CountByMultiset(a[..n], Without(b, p), id);
      CountWithout(b, p, id);
    }
  }

  lemma {:induction false} CountConcat(a: seq<RecallResult>, b: seq<RecallResult>, id: Id)
    ensures Count(a + b, id) == Count(a, id) + Count(b, id)
  {
    if b == [] {
      assert a + b == a;
    } else {
      assert (a + b)[..|a + b| - 1] == a + b[..|b| - 1];
      CountConcat(a, b[..|b| - 1], id);
    }
  }

  lemma CountWithout(b: seq<RecallResult>, p: nat, id: Id)
    requires p < |b|
    ensures Count(b, id) == Count(Without(b, p), id) + if b[p].id == id then 1 else 0
  {
    assert b == (b[..p] + [b[p]]) + b[p + 1..];
    CountConcat(b[..p] + [b[p]], b[p + 1..], id);
    CountConcat(b[..p], b[p + 1..], id);
    assert (b[..p] + [b[p]])[..p] == b[..p];
  }

  /** Repeats of an id carry equal signals. */
  ghost predicate EqualSignals(results: seq<RecallResult>, imp: RecallResult -> real) {
    forall r, s :: r in results && s in results && r.id == s.id ==> imp(r) == imp(s)
  }

  /** Any reordering of the search results gives every id the same score. */
  lemma ScoreIgnoresOrder(a: seq<RecallResult>, b: seq<RecallResult>, links: set<Id>, k: nat,
                          imp: RecallResult -> real, id: Id)
    requires multiset(a) == multiset(b) && EqualSignals(a, imp)
    ensures ScoreOf(a, links, k, imp)(id) == ScoreOf(b, links, k, imp)(id)
  {
    CountByMultiset(a, b, id);
    CountAbsent(a, id);
    CountAbsent(b, id);
    if id in IdsOf(a) {
      MultisetMember(b, a, Last(b, id));
      assert imp(Last(a, id)) == imp(Last(b, id));
    }
  }

  /** Reordering the search results leaves the list of ranked scores as it was. */
  lemma FusionIgnoresOrder(a: seq<RecallResult>, b: seq<RecallResult>, links: set<Id>, k: nat,
                           imp: RecallResult -> real, fusedA: seq<RecallResult>, fusedB: seq<RecallResult>)
    requires multiset(a) == multiset(b) && EqualSignals(a, imp)
    requires IsFusion(a, ScoreOf(a, links, k, imp), fusedA) && IsFusion(b, ScoreOf(b, links, k, imp), fusedB)
    ensures Scores(Ids(fusedA), ScoreOf(a, links, k, imp)) == Scores(Ids(fusedB), ScoreOf(b, links, k, imp))
  {
    var f, g := ScoreOf(a, links, k, imp), ScoreOf(b, links, k, imp);
    forall id ensures f(id) == g(id) { ScoreIgnoresOrder(a, b, links, k, imp, id); }
    FirstSeenIsDistinct(a);
    FirstSeenIsDistinct(b);
    forall id ensures id in FirstSeen(a) <==> id in FirstSeen(b) {
      CountByMultiset(a, b, id);
      CountAbsent(a, id);
      CountAbsent(b, id);
    }
    DistinctSameMembers(FirstSeen(a), FirstSeen(b));
    RankingCongruent(FirstSeen(b), g, f, Ids(fusedB));
    SameScores(FirstSeen(a), FirstSeen(b), f, Ids(fusedA), Ids(fusedB));
    assert Scores(Ids(fusedB), f) == Scores(Ids(fusedB), g);
  }

  // ---- The entity boost ----

  lemma HarmonicPositive(k: nat, m: nat)
    ensures Harmonic(k, m) >= 0.0
    ensures m > 0 ==> Harmonic(k, m) > 0.0
  {
  }

  lemma UnboostedIsNonNegative(results: seq<RecallResult>, k: nat, imp: RecallResult -> real, id: Id)
    requires forall r :: imp(r) >= 0.0
    ensures ScoreOf(results, {}, k, imp)(id) >= 0.0
  {
    if id in IdsOf(results) {
      HarmonicPositive(k, Count(results, id));
      var h, i := Harmonic(k, Count(results, id)), imp(Last(results, id));
      ProductSign(h, i, h * i);
    }
  }

  lemma ScoreIsBoosted(results: seq<RecallResult>, links: set<Id>, k: nat, imp: RecallResult -> real, id: Id)
    ensures ScoreOf(results, links, k, imp)(id) ==
            ScoreOf(results, {}, k, imp)(id) * if id in links then ENTITY_BOOST else 1.0
  {
    if id in IdsOf(results) {
      var h, i := Harmonic(k, Count(results, id)), imp(Last(results, id));
      WeightedByBoost(h, i, Boost(links, id));
    }
  }

  lemma WeightedByBoost(h: real, i: real, boost: real)
    ensures Weighted(h, i, boost) == Weighted(h, i, 1.0) * boost
  {
    var p := h * i;
    assert p * 1.0 == p;
  }

  /**
   * Fusing again with more linked ids never puts a newly linked id below one it preceded. The
   * other id may be linked already, newly linked too, or not linked at all.
   */
  lemma BoostIsOrderSafe(results: seq<RecallResult>, links: set<Id>, more: set<Id>, k: nat, imp: RecallResult -> real,
                         first: seq<RecallResult>, second: seq<RecallResult>, a: Id, b: Id)
    requires forall r :: imp(r) >= 0.0
    requires links <= more && a in more && a !in links
    requires IsFusion(results, ScoreOf(results, links, k, imp), first)
    requires IsFusion(results, ScoreOf(results, more, k, imp), second)
    requires Before(Ids(first), a, b)
    ensures Before(Ids(second), a, b)
  {
    FirstSeenIsDistinct(results);
    FusionListsEachOnce(results, ScoreOf(results, links, k, imp), first);
    MultisetMember(Ids(first), FirstSeen(results), a);
    MultisetMember(Ids(first), FirstSeen(results), b);
    RankingOrder(FirstSeen(results), ScoreOf(results, links, k, imp), Ids(first), a, b);
    RankingOrder(FirstSeen(results), ScoreOf(results, more, k, imp), Ids(second), a, b);
    BoostKeepsScoreOrder(results, links, more, k, imp, a, b);
  }

  lemma BoostKeepsScoreOrder(results: seq<RecallResult>, links: set<Id>, more: set<Id>, k: nat,
                             imp: RecallResult -> real, a: Id, b: Id)
    requires forall r :: imp(r) >= 0.0
    requires links <= more && a in more && a !in links
    ensures var f, g := ScoreOf(results, links, k, imp), ScoreOf(results, more, k, imp);
            (f(a) > f(b) ==> g(a) > g(b)) && (f(a) == f(b) ==> g(a) >= g(b))
  {
    ScoreIsBoosted(results, links, k, imp, a);
    ScoreIsBoosted(results, links, k, imp, b);
    ScoreIsBoosted(results, more, k, imp, a);
    ScoreIsBoosted(results, more, k, imp, b);
    UnboostedIsNonNegative(results, k, imp, a);
    UnboostedIsNonNegative(results, k, imp, b);
  }

  /**
   * At equal positive importance, the score of an unlinked id found m >= 2 times against that of a
   * linked id found once: higher, but for two occurrences at a fusion constant of zero, where they tie.
   */
  lemma TwiceBeatsBoost(k: nat, m: nat, importance: real)
    requires importance > 0.0 && m >= 2
    ensures var a, b := Weighted(Harmonic(k, m), importance, 1.0), Weighted(Harmonic(k, 1), importance, ENTITY_BOOST);
            a >= b && (a > b <==> k >= 1 || m > 2)
  {
    var x, y := 1.0 / (k + 1) as real, 1.0 / (k + 2) as real;
    assert Harmonic(k, 1) == Harmonic(k, 0) + x && Harmonic(k, 2) == Harmonic(k, 1) + y;
    assert x * (k + 1) as real == 1.0 && y * (k + 2) as real == 1.0;
    TwiceOrder(k as real, x, y);
    HarmonicGrows(k, 2, m);
    var h := Harmonic(k, m);
    var gap := h - x * ENTITY_BOOST;
    WeightedGap(h, x, importance, gap, gap * importance);
  }

  lemma WeightedGap(h: real, x: real, importance: real, gap: real, p: real)
    requires importance > 0.0 && gap == h - x * ENTITY_BOOST && gap >= 0.0 && p == gap * importance
    ensures Weighted(h, importance, 1.0) - Weighted(x, importance, ENTITY_BOOST) == p >= 0.0
    ensures p > 0.0 <==> gap > 0.0
  {
    ProductSign(gap, importance, p);
    assert (h - x * ENTITY_BOOST) * importance == h * importance - x * importance * ENTITY_BOOST;
  }

  lemma {:induction false} HarmonicGrows(k: nat, m: nat, n: nat)
    requires 0 < m <= n
    ensures Harmonic(k, m) <= Harmonic(k, n) && (m < n ==> Harmonic(k, m) < Harmonic(k, n))
  {
    if m == n {
    } else {
      HarmonicGrows(k, m, n - 1);
      QuotientPositive(1.0, (k + n) as real);
    }
  }

  lemma QuotientPositive(x: real, y: real)
    requires x > 0.0 && y > 0.0
    ensures x / y > 0.0
  {
  }

  /**
   * In a fusion, an unlinked id found at least twice outranks a linked id found once, at equal
   * positive importance, unless the fusion constant is zero and it was found just twice: then they
   * tie, and the one seen first comes first.
   */
  lemma TwiceOutranks(results: seq<RecallResult>, links: set<Id>, k: nat, imp: RecallResult -> real,
                      fused: seq<RecallResult>, a: Id, b: Id)
    requires IsFusion(results, ScoreOf(results, links, k, imp), fused)
    requires Count(results, a) >= 2 && a !in links && Count(results, b) == 1 && b in links
    requires a in IdsOf(results) && b in IdsOf(results)
    requires imp(Last(results, a)) == imp(Last(results, b)) > 0.0
    ensures Before(Ids(fused), a, b) <==>
            k >= 1 || Count(results, a) > 2 || Before(FirstSeen(results), a, b)
  {
    FirstSeenIsDistinct(results);
    TwiceBeatsBoost(k, Count(results, a), imp(Last(results, a)));
    RankingOrder(FirstSeen(results), ScoreOf(results, links, k, imp), Ids(fused), a, b);
  }

  lemma TwiceOrder(k: real, x: real, y: real)
    requires k >= 0.0 && x * (k + 1.0) == 1.0 && y * (k + 2.0) == 1.0
    ensures y >= 0.5 * x && (y > 0.5 * x <==> k > 0.0)
  {
    assert x > 0.0 && y > 0.0;
    assert (y - 0.5 * x) * ((k + 1.0) * (k + 2.0)) == (k + 1.0) - 0.5 * (k + 2.0);
    ProductSign(k + 1.0, k + 2.0, (k + 1.0) * (k + 2.0));
    if k == 0.0 { assert x == 1.0 && y == 0.5; }
  }

  // ---- What the parts of a score are ----

  /** The result shown for an id is the latest that has it. */
  lemma {:induction false} LastIsLatest(results: seq<RecallResult>, id: Id) returns (p: nat)
    requires id in IdsOf(results)
    ensures p < |results| && results[p] == Last(results, id) && results[p].id == id
    ensures forall q :: p < q < |results| ==> results[q].id != id
  {
    var n := |results| - 1;
    if results[n].id == id {
      p := n;
    } else {
      assert results == results[..n] + [results[n]];
      p := LastIsLatest(results[..n], id);
    }
  }

  /** The ids in order of first appearance. */
  lemma {:induction false} FirstSeenInOrder(results: seq<RecallResult>) returns (at: seq<nat>)
    ensures Increasing(at) && |at| == |FirstSeen(results)|
    ensures forall k :: 0 <= k < |at| ==> at[k] < |results| && FirstSeen(results)[k] == results[at[k]].id
    ensures forall p: nat :: p in at <==> p < |results| && IsNewAt(results, p)
  {
    if results == [] {
      at := [];
    } else {
      var n := |results| - 1;
      var before := FirstSeenInOrder(results[..n]);
      FirstSeenIsDistinct(results[..n]);
      if results[n].id in FirstSeen(results[..n]) { at := before; } else { at := AppendPlace(before, n); }
      forall p: nat ensures p in at <==> p < |results| && IsNewAt(results, p) { NewAtStep(results, before, p); }
    }
  }

  /** No earlier result has the id of result `p`. */
  predicate IsNewAt(results: seq<RecallResult>, p: nat)
    requires p < |results|
  {
    forall q :: 0 <= q < p ==> results[q].id != results[p].id
  }

  lemma NewAtStep(results: seq<RecallResult>, before: seq<nat>, p: nat)
    requires results != []
    requires var n := |results| - 1; forall p: nat :: p in before <==> p < n && IsNewAt(results[..n], p)
    ensures var n := |results| - 1;
            p < |results| && IsNewAt(results, p) <==>
            p in before || (p == n && results[n].id !in IdsOf(results[..n]))
  {
    var n := |results| - 1;
    if p < n {
      assert forall q :: 0 <= q <= p ==> results[..n][q] == results[q];
    } else if p == n {
      assert forall q :: 0 <= q < n ==> results[..n][q] == results[q] && results[..n][q] in results[..n];
    }
  }

  /** The places at which an id occurs. */
  function Occurrences(results: seq<RecallResult>, id: Id): set<nat> {
    set p | 0 <= p < |results| && results[p].id == id
  }

  lemma {:induction false} CountIsOccurrences(results: seq<RecallResult>, id: Id)
    ensures Count(results, id) == |Occurrences(results, id)|
  {
    if results == [] {
      assert Occurrences(results, id) == {};
    } else {
      var n := |results| - 1;
      CountIsOccurrences(results[..n], id);
      OccurrencesStep(results, id);
      AddingCounts(Occurrences(results[..n], id), n);
    }
  }

  lemma OccurrencesStep(results: seq<RecallResult>, id: Id)
    requires results != []
    ensures var n, before := |results| - 1, Occurrences(results[..|results| - 1], id);
            && n !in before
            && Occurrences(results, id) == if results[n].id == id then before + {n} else before
  {
  }

  /** A recall today is worth one fifth, each day since costs a thirtieth of that, and after a month nothing is left. */
  lemma RecencyFades(days: int)
    ensures RecencyBoost(None) == 0.0 && RecencyBoost(Some(0)) == 0.2
    ensures days >= 30 ==> RecencyBoost(Some(days)) == 0.0
    ensures days < 30 ==> RecencyBoost(Some(days)) - RecencyBoost(Some(days + 1)) == 0.2 / 30.0
  {
  }

  /** Between the bounds, importance is the base with what frequency and recency add, times the confidence. */
  lemma ImportanceIsProduct(log1p: nat -> real, base: real, n: nat, days: Option<int>, confidence: real, raw: real)
    requires raw == base + log1p(n) / 10.0 + RecencyBoost(days)
    requires 0.0 <= raw && 0.0 <= confidence <= 1.0
    ensures DynamicImportance(log1p, base, n, days, confidence) == (if raw <= 1.0 then raw else 1.0) * confidence
  {
    var capped := Min(1.0, raw);
    ProductSign(capped, confidence, capped * confidence);
    ScaleMonotone(capped, 1.0, confidence, capped * confidence, confidence);
  }

  /** A memory never recalled, in full confidence, counts with its base; one without an importance with one half. */
  lemma ImportanceUntouched(log1p: nat -> real, r: RecallResult)
    requires IsLog1p(log1p) && r.recallCount == 0 && r.lastRecalledDays == None && r.confidence == 1.0
    requires r.importance.Some? ==> 0.0 <= r.importance.value <= 1.0
    ensures Importances(log1p)(r) == if r.importance.Some? then r.importance.value else 0.5
  {
  }

  /** Less confidence or a longer silence never raises the importance. */
  lemma ImportanceFades(log1p: nat -> real, base: real, n: nat, days: int, more: int, low: real, high: real)
    requires IsLog1p(log1p) && base >= 0.0 && days <= more && 0.0 <= low <= high
    ensures DynamicImportance(log1p, base, n, Some(more), low) <= DynamicImportance(log1p, base, n, Some(days), high)
  {
    var x, y := base + log1p(n) / 10.0 + RecencyBoost(Some(more)), base + log1p(n) / 10.0 + RecencyBoost(Some(days));
    RecencyOrder(days, more);
    ScaledMonotone(x, y, low);
    assert log1p(n) >= 0.0;
    ScaledInConfidence(y, low, high);
  }

  lemma RecencyOrder(days: int, more: int)
    requires days <= more
    ensures 0.0 <= RecencyBoost(Some(more)) <= RecencyBoost(Some(days))
  {
  }

  lemma ScaledInConfidence(raw: real, low: real, high: real)
    requires raw >= 0.0 && low <= high
    ensures Scaled(raw, low) <= Scaled(raw, high)
  {
    var c := Min(1.0, raw);
    ScaleMonotone(low, high, c, low * c, high * c);
    assert c * low == low * c && c * high == high * c;
  }
}
