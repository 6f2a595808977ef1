/**
 * Maximal marginal relevance: the greedy diversification of knowledge candidates
 * (src/qortia/recall_helpers.py). The method is proved against IsMmr, which fixes the
 * result uniquely; what the pipeline can expect of the result follows from IsMmr alone.
 */
module Mmr {
  import opened Wrappers
  import opened Results
  import opened Collections
  import Cosine
  import Arithmetic

  type Similarity = (seq<real>, seq<real>) -> real

  /** The weights of one call; the defaults are 0.5, 0.85, 0.35 and 4. */
  datatype Weights = Weights(lambda: real, dedupThreshold: real, minScore: real, k: int)

  const DEFAULT_LAMBDA := 0.5
  const DEFAULT_DEDUP_THRESHOLD := 0.85
  const DEFAULT_K := 4

  function ScoresAtLeast(minScore: real): RecallResult -> bool {
    (c: RecallResult) => c.score >= minScore
  }

  function Eligible(candidates: seq<RecallResult>, minScore: real): seq<RecallResult> {
    Filter(candidates, ScoresAtLeast(minScore))
  }

  /** The similarities of an embedding to those results picked so far that have one. */
  function Similarities(cos: Similarity, e: seq<real>, selected: seq<RecallResult>): seq<real> {
    if selected == [] then []
    else (if selected[0].embedding != [] then [cos(e, selected[0].embedding)] else [])
         + Similarities(cos, e, selected[1..])
  }

  function MaxOf(s: seq<real>): real
    requires s != []
  {
    if |s| == 1 then s[0]
    else
      var m := MaxOf(s[1..]);
      if s[0] >= m then s[0] else m
  }

  function Redundancy(cos: Similarity, c: RecallResult, selected: seq<RecallResult>): real {
    var s := Similarities(cos, c.embedding, selected);
    if s == [] then 0.0 else MaxOf(s)
  }

  /** A candidate that may still be picked: it has an embedding and resembles no pick too closely. */
  predicate Admissible(cos: Similarity, w: Weights, c: RecallResult, selected: seq<RecallResult>) {
    c.embedding != [] && Redundancy(cos, c, selected) < w.dedupThreshold
  }

  function Score(cos: Similarity, query: seq<real>, w: Weights, c: RecallResult, selected: seq<RecallResult>): real {
    Weigh(w.lambda, cos(query, c.embedding), Redundancy(cos, c, selected))
  }

  /** Relevance to the query against redundancy. */
  function Weigh(lambda: real, relevance: real, redundancy: real): real {
    lambda * relevance - (1.0 - lambda) * redundancy
  }

  /** How a candidate ranks given the picks so far: None when it may not be picked. */
  type Ranking = (RecallResult, seq<RecallResult>) -> Option<real>

  function Rank(cos: Similarity, query: seq<real>, w: Weights): Ranking {
    (c: RecallResult, selected: seq<RecallResult>) =>
      if Admissible(cos, w, c, selected) then Some(Score(cos, query, w, c, selected)) else None
  }

  const BEST_START := -1.0

  /** `c` may be picked, with a score above the starting value of the search. */
  predicate Pickable(rank: Ranking, c: RecallResult, selected: seq<RecallResult>) {
    rank(c, selected).Some? && rank(c, selected).value > BEST_START
  }

  function Picked(eligible: seq<RecallResult>, picks: seq<nat>): seq<RecallResult>
    requires forall p :: p in picks ==> p < |eligible|
  {
    seq(|picks|, i requires 0 <= i < |picks| => assert picks[i] in picks; eligible[picks[i]])
  }

  /** Pick `p` is the first of the best pickable candidates that are left. */
  ghost predicate IsBest(rank: Ranking, eligible: seq<RecallResult>, taken: seq<nat>, selected: seq<RecallResult>,
                         p: nat) {
    && p < |eligible| && p !in taken && Pickable(rank, eligible[p], selected)
    && forall q :: 0 <= q < |eligible| && q !in taken && Pickable(rank, eligible[q], selected) ==>
         || rank(eligible[q], selected).value < rank(eligible[p], selected).value
         || (rank(eligible[q], selected) == rank(eligible[p], selected) && p <= q)
  }

  /** Nothing that is left may be picked. */
  ghost predicate Exhausted(rank: Ranking, eligible: seq<RecallResult>, taken: seq<nat>, selected: seq<RecallResult>) {
    forall q :: 0 <= q < |eligible| && q !in taken ==> !Pickable(rank, eligible[q], selected)
  }

  /** The picks so far: the first eligible candidate, then each time the best that is left. */
  ghost predicate Greedy(rank: Ranking, eligible: seq<RecallResult>, picks: seq<nat>) {
    && (forall p :: p in picks ==> p < |eligible|)
    && (picks != [] ==> picks[0] == 0)
    && forall i :: 0 < i < |picks| ==> IsBest(rank, eligible, picks[..i], Picked(eligible, picks)[..i], picks[i])
  }

  /** The whole specification: greedy, at most k picks, and no earlier stop than necessary. */
  ghost predicate IsMmr(rank: Ranking, eligible: seq<RecallResult>, k: int, picks: seq<nat>) {
    && Greedy(rank, eligible, picks)
    && |picks| <= (if k < 0 then 0 else k)
    && (|picks| < k ==>
          if picks == [] then eligible == [] else Exhausted(rank, eligible, picks, Picked(eligible, picks)))
  }

  /** `selected` are the candidates some such picks stand for. */
  ghost predicate IsSelection(rank: Ranking, eligible: seq<RecallResult>, k: int, selected: seq<RecallResult>) {
    exists picks :: IsMmr(rank, eligible, k, picks) && selected == Picked(eligible, picks)
  }

  // ---- The method ----

  /** The first best pickable position of `remaining`, if any. */
  method FindBest(rank: Ranking, remaining: seq<RecallResult>, selected: seq<RecallResult>) returns (best: Option<nat>)
    ensures best.None? ==> forall q :: 0 <= q < |remaining| ==> !Pickable(rank, remaining[q], selected)
    ensures best.Some? ==>
      && best.value < |remaining| && Pickable(rank, remaining[best.value], selected)
      && forall q :: 0 <= q < |remaining| && Pickable(rank, remaining[q], selected) ==>
           || rank(remaining[q], selected).value < rank(remaining[best.value], selected).value
           || (rank(remaining[q], selected) == rank(remaining[best.value], selected) && best.value <= q)
  {
    best := None;
    var bestScore := BEST_START;
    for j := 0 to |remaining|
      invariant best.None? ==> bestScore == BEST_START
      invariant best.None? ==> forall q :: 0 <= q < j ==> !Pickable(rank, remaining[q], selected)
      invariant best.Some? ==>
        && best.value < j && Pickable(rank, remaining[best.value], selected)
        && bestScore == rank(remaining[best.value], selected).value
        && forall q :: 0 <= q < j && Pickable(rank, remaining[q], selected) ==>
             || rank(remaining[q], selected).value < bestScore
             || (rank(remaining[q], selected).value == bestScore && best.value <= q)
    {
      var r := rank(remaining[j], selected);
      if r.None? { continue; }
      if r.value > bestScore {
        bestScore, best := r.value, Some(j);
      }
    }
  }

  /** list.remove: drops the first element equal to `x`. */
  function RemoveFirst(s: seq<RecallResult>, x: RecallResult): seq<RecallResult> {
    if s == [] then [] else if s[0] == x then s[1..] else [s[0]] + RemoveFirst(s[1..], x)
  }

  lemma {:induction false} RemoveFirstAt(s: seq<RecallResult>, j: nat)
    requires j < |s| && forall q :: 0 <= q < j ==> s[q] != s[j]
    ensures RemoveFirst(s, s[j]) == s[..j] + s[j + 1..]
  {
    if j == 0 {
    } else {
      assert s[1..][j - 1] == s[j];
      RemoveFirstAt(s[1..], j - 1);
      assert RemoveFirst(s, s[j]) == [s[0]] + (s[1..][..j - 1] + s[1..][j..]);
    }
  }

  /** `rest` lists, in order, the positions of the eligible candidates that are not taken. */
  ghost predicate Left(eligible: seq<RecallResult>, taken: seq<nat>, rest: seq<nat>, remaining: seq<RecallResult>) {
    && (forall i, j :: 0 <= i < j < |rest| ==> rest[i] < rest[j])
    && (forall q: nat :: q in rest <==> q < |eligible| && q !in taken)
    && |remaining| == |rest|
    && forall i :: 0 <= i < |rest| ==> rest[i] < |eligible| && remaining[i] == eligible[rest[i]]
  }

  /** Dropping position j of a list without repeats drops that element. */
  lemma DropMembers(rest: seq<nat>, j: nat, q: nat)
    requires j < |rest| && forall i, k :: 0 <= i < k < |rest| ==> rest[i] < rest[k]
    ensures q in rest[..j] + rest[j + 1..] <==> q in rest && q != rest[j]
  {
    if q in rest && q != rest[j] {
      var i :| 0 <= i < |rest| && rest[i] == q;
      if i < j { assert rest[..j][i] == q; } else { assert rest[j + 1..][i - j - 1] == q; }
    }
  }

  lemma DropKeepsOrder(rest: seq<nat>, j: nat, i: nat, k: nat)
    requires j < |rest| && forall i, k :: 0 <= i < k < |rest| ==> rest[i] < rest[k]
    requires i < k < |rest| - 1
    ensures (rest[..j] + rest[j + 1..])[i] < (rest[..j] + rest[j + 1..])[k]
  {
    var i', k' := if i < j then i else i + 1, if k < j then k else k + 1;
    assert rest[i'] < rest[k'];
  }

  lemma DropAt<T>(s: seq<T>, j: nat, i: nat)
    requires j < |s| && i < |s| - 1
    ensures (s[..j] + s[j + 1..])[i] == s[if i < j then i else i + 1]
  {
  }

  /** Removing position j of what is left takes the candidate it stands for. */
  lemma LeftShrinks(eligible: seq<RecallResult>, taken: seq<nat>, rest: seq<nat>, remaining: seq<RecallResult>, j: nat)
    requires Left(eligible, taken, rest, remaining) && j < |rest|
    ensures Left(eligible, taken + [rest[j]], rest[..j] + rest[j + 1..], remaining[..j] + remaining[j + 1..])
  {
    var rest' := rest[..j] + rest[j + 1..];
    forall i, k | 0 <= i < k < |rest'| ensures rest'[i] < rest'[k] { DropKeepsOrder(rest, j, i, k); }
    forall q: nat ensures q in rest' <==> q in rest && q != rest[j] { DropMembers(rest, j, q); }
    forall i | 0 <= i < |rest'|
      ensures rest'[i] < |eligible| && (remaining[..j] + remaining[j + 1..])[i] == eligible[rest'[i]]
    {
      DropAt(rest, j, i);
      DropAt(remaining, j, i);
    }
  }

  lemma BestAmongLeft(rank: Ranking, eligible: seq<RecallResult>, taken: seq<nat>, selected: seq<RecallResult>,
                      rest: seq<nat>, remaining: seq<RecallResult>, j: nat)
    requires Left(eligible, taken, rest, remaining) && j < |rest| && Pickable(rank, remaining[j], selected)
    requires forall q :: 0 <= q < |remaining| && Pickable(rank, remaining[q], selected) ==>
      || rank(remaining[q], selected).value < rank(remaining[j], selected).value
      || (rank(remaining[q], selected) == rank(remaining[j], selected) && j <= q)
    ensures IsBest(rank, eligible, taken, selected, rest[j])
  {
    assert rest[j] in rest;
    forall q | 0 <= q < |eligible| && q !in taken && Pickable(rank, eligible[q], selected)
      ensures || rank(eligible[q], selected).value < rank(eligible[rest[j]], selected).value
              || (rank(eligible[q], selected) == rank(eligible[rest[j]], selected) && rest[j] <= q)
    {
      assert q in rest;
      var i :| 0 <= i < |rest| && rest[i] == q;
      assert remaining[i] == eligible[q];
    }
  }

  lemma ExhaustedFromLeft(rank: Ranking, eligible: seq<RecallResult>, taken: seq<nat>, selected: seq<RecallResult>,
                          rest: seq<nat>, remaining: seq<RecallResult>)
    requires Left(eligible, taken, rest, remaining)
    requires forall q :: 0 <= q < |remaining| ==> !Pickable(rank, remaining[q], selected)
    ensures Exhausted(rank, eligible, taken, selected)
  {
    forall q | 0 <= q < |eligible| && q !in taken ensures !Pickable(rank, eligible[q], selected) {
      assert q in rest;
      var i :| 0 <= i < |rest| && rest[i] == q;
      assert remaining[i] == eligible[q];
    }
  }

  lemma GreedyExtends(rank: Ranking, eligible: seq<RecallResult>, picks: seq<nat>, p: nat)
    requires Greedy(rank, eligible, picks) && p < |eligible|
    requires if picks == [] then p == 0 else IsBest(rank, eligible, picks, Picked(eligible, picks), p)
    ensures Greedy(rank, eligible, picks + [p])
    ensures Picked(eligible, picks + [p]) == Picked(eligible, picks) + [eligible[p]]
  {
    var all := picks + [p];
    assert Picked(eligible, all) == Picked(eligible, picks) + [eligible[p]];
    forall i | 0 < i < |all| ensures IsBest(rank, eligible, all[..i], Picked(eligible, all)[..i], all[i]) {
      assert all[..i] == picks[..i];
      assert Picked(eligible, all)[..i] == Picked(eligible, picks)[..i];
      if i == |picks| {
        assert picks[..i] == picks && Picked(eligible, picks)[..i] == Picked(eligible, picks);
      }
    }
  }

  /** Before any pick, everything eligible is left. */
  lemma AllLeft(eligible: seq<RecallResult>) returns (rest: seq<nat>)
    ensures Left(eligible, [], rest, eligible)
    ensures |rest| == |eligible| && forall i :: 0 <= i < |rest| ==> rest[i] == i
  {
    rest := seq(|eligible|, i => i);
    forall q: nat | q < |eligible| ensures q in rest { assert rest[q] == q; }
  }

  /** State of the selection loop. */
  ghost predicate Selecting(rank: Ranking, eligible: seq<RecallResult>, picks: seq<nat>, selected: seq<RecallResult>,
                            rest: seq<nat>, remaining: seq<RecallResult>) {
    && Greedy(rank, eligible, picks)
    && selected == Picked(eligible, picks)
    && Left(eligible, picks, rest, remaining)
  }

  /** Taking position j of what is left, when that is the pick the specification asks for. */
  lemma SelectStep(rank: Ranking, eligible: seq<RecallResult>, picks: seq<nat>, selected: seq<RecallResult>,
                   rest: seq<nat>, remaining: seq<RecallResult>, j: nat)
    requires Selecting(rank, eligible, picks, selected, rest, remaining) && j < |rest|
    requires if picks == [] then rest[j] == 0 else IsBest(rank, eligible, picks, selected, rest[j])
    ensures Selecting(rank, eligible, picks + [rest[j]], selected + [remaining[j]],
                      rest[..j] + rest[j + 1..], remaining[..j] + remaining[j + 1..])
  {
    GreedyExtends(rank, eligible, picks, rest[j]);
    LeftShrinks(eligible, picks, rest, remaining, j);
  }

  /** Picks the best of what is left, if anything may be picked, and removes it. */
  method PickBest(rank: Ranking, ghost eligible: seq<RecallResult>, ghost picks: seq<nat>, selected: seq<RecallResult>,
                  ghost rest: seq<nat>, remaining: seq<RecallResult>)
    returns (best: Option<RecallResult>, remaining': seq<RecallResult>, ghost picks': seq<nat>, ghost rest': seq<nat>)
    requires Selecting(rank, eligible, picks, selected, rest, remaining) && picks != []
    ensures best.None? ==> Exhausted(rank, eligible, picks, selected) && picks' == picks
    ensures best.Some? ==>
      && Selecting(rank, eligible, picks', selected + [best.value], rest', remaining')
      && |picks'| == |picks| + 1 && |remaining'| < |remaining|
  {
    var at := FindBest(rank, remaining, selected);
    if at == None {
      ExhaustedFromLeft(rank, eligible, picks, selected, rest, remaining);
      return None, remaining, picks, rest;
    }
    var j := at.value;
    BestAmongLeft(rank, eligible, picks, selected, rest, remaining, j);
    SelectStep(rank, eligible, picks, selected, rest, remaining, j);
    assert forall q :: 0 <= q < j ==> remaining[q] != remaining[j];
    RemoveFirstAt(remaining, j);
    best, remaining' := Some(remaining[j]), RemoveFirst(remaining, remaining[j]);
    picks', rest' := picks + [rest[j]], rest[..j] + rest[j + 1..];
  }

  method SelectGreedily(rank: Ranking, eligible: seq<RecallResult>, k: int)
    returns (selected: seq<RecallResult>, ghost picks: seq<nat>)
    ensures IsSelection(rank, eligible, k, selected)
    ensures IsMmr(rank, eligible, k, picks) && selected == Picked(eligible, picks)
  {
    selected, picks := [], [];
    if eligible == [] { return; }
    var remaining := eligible;
    ghost var rest := AllLeft(eligible);
    while remaining != [] && |selected| < k
      invariant Selecting(rank, eligible, picks, selected, rest, remaining)
      invariant |picks| <= if k < 0 then 0 else k
      invariant picks == [] ==> remaining == eligible && rest[0] == 0
      decreases |remaining|
    {
      if selected == [] {
        SelectStep(rank, eligible, picks, selected, rest, remaining, 0);
        selected, picks := selected + [remaining[0]], picks + [rest[0]];
        remaining, rest := remaining[..0] + remaining[1..], rest[..0] + rest[1..];
      } else {
        var best;
        best, remaining, picks, rest := PickBest(rank, eligible, picks, selected, rest, remaining);
        if best == None { return; }
        selected := selected + [best.value];
      }
    }
    if remaining == [] { ExhaustedFromLeft(rank, eligible, picks, selected, rest, remaining); }
  }

  /** MMR over the cosine similarity. */
  method Mmr(sqrt: real -> real, query: seq<real>, candidates: seq<RecallResult>, w: Weights)
    returns (selected: seq<RecallResult>)
    ensures IsSelection(Rank(CosineSimilarity(sqrt), query, w), Eligible(candidates, w.minScore), w.k, selected)
  {
    ghost var picks;
    selected, picks :=
      SelectGreedily(Rank(CosineSimilarity(sqrt), query, w), Eligible(candidates, w.minScore), w.k);
  }

  function CosineSimilarity(sqrt: real -> real): Similarity {
    (a: seq<real>, b: seq<real>) => Cosine.CosineOf(sqrt, a, b)
  }

  // ---- What the result means ----

  lemma EligibleIsFilter(candidates: seq<RecallResult>, minScore: real, c: RecallResult)
    ensures c in Eligible(candidates, minScore) <==> c in candidates && c.score >= minScore
  {
    FilterMembers(candidates, ScoresAtLeast(minScore), c);
  }

  lemma {:induction false} MaxOfBounds(s: seq<real>)
    requires s != []
    ensures MaxOf(s) in s && forall x :: x in s ==> x <= MaxOf(s)
  {
    if |s| == 1 {
    } else {
      MaxOfBounds(s[1..]);
      forall x | x in s ensures x <= MaxOf(s) { if x != s[0] { assert x in s[1..]; } }
    }
  }

  lemma {:induction false} SimilaritiesOfPicks(cos: Similarity, e: seq<real>, selected: seq<RecallResult>)
    ensures forall i :: 0 <= i < |selected| && selected[i].embedding != [] ==>
              cos(e, selected[i].embedding) in Similarities(cos, e, selected)
    ensures forall x :: x in Similarities(cos, e, selected) ==>
              exists i :: 0 <= i < |selected| && selected[i].embedding != [] && x == cos(e, selected[i].embedding)
  {
    if selected == [] {
    } else {
      var rest := selected[1..];
      SimilaritiesOfPicks(cos, e, rest);
      forall i | 0 <= i < |selected| && selected[i].embedding != []
        ensures cos(e, selected[i].embedding) in Similarities(cos, e, selected)
      {
        if i > 0 { assert rest[i - 1] == selected[i]; }
      }
      forall x | x in Similarities(cos, e, selected)
        ensures exists i :: 0 <= i < |selected| && selected[i].embedding != [] && x == cos(e, selected[i].embedding)
      {
        if x in Similarities(cos, e, rest) {
          var i :| 0 <= i < |rest| && rest[i].embedding != [] && x == cos(e, rest[i].embedding);
          assert selected[i + 1] == rest[i];
        }
      }
    }
  }

  /** The redundancy is at least the similarity to each pick, and is one of them when there are any. */
  lemma RedundancyIsMax(cos: Similarity, c: RecallResult, selected: seq<RecallResult>)
    ensures forall i :: 0 <= i < |selected| && selected[i].embedding != [] ==>
              cos(c.embedding, selected[i].embedding) <= Redundancy(cos, c, selected)
    ensures Redundancy(cos, c, selected) == 0.0 ||
            exists i :: 0 <= i < |selected| && selected[i].embedding != []
                     && Redundancy(cos, c, selected) == cos(c.embedding, selected[i].embedding)
  {
    SimilaritiesOfPicks(cos, c.embedding, selected);
    if Similarities(cos, c.embedding, selected) != [] { MaxOfBounds(Similarities(cos, c.embedding, selected)); }
  }

  /** Any two picks that have embeddings resemble each other less than the threshold. */
  lemma PicksAreDiverse(cos: Similarity, query: seq<real>, w: Weights, eligible: seq<RecallResult>, picks: seq<nat>,
                        i: nat, j: nat)
    requires Greedy(Rank(cos, query, w), eligible, picks) && i < j < |picks|
    requires Picked(eligible, picks)[i].embedding != []
    ensures var selected := Picked(eligible, picks);
            selected[j].embedding != [] && cos(selected[j].embedding, selected[i].embedding) < w.dedupThreshold
  {
    var selected := Picked(eligible, picks);
    assert IsBest(Rank(cos, query, w), eligible, picks[..j], selected[..j], picks[j]);
    RedundancyIsMax(cos, selected[j], selected[..j]);
    assert selected[..j][i] == selected[i];
  }

  /** Cosine similarity is symmetric, so this holds whichever of the two was picked first. */
  lemma EmbeddedPicksDiffer(sqrt: real -> real, query: seq<real>, w: Weights, eligible: seq<RecallResult>,
                            picks: seq<nat>, i: nat, j: nat)
    requires Greedy(Rank(CosineSimilarity(sqrt), query, w), eligible, picks) && i < |picks| && j < |picks| && i != j
    requires Picked(eligible, picks)[i].embedding != [] && Picked(eligible, picks)[j].embedding != []
    ensures Cosine.CosineOf(sqrt, Picked(eligible, picks)[i].embedding, Picked(eligible, picks)[j].embedding)
            < w.dedupThreshold
  {
    Cosine.CosineSymmetric(sqrt, Picked(eligible, picks)[i].embedding, Picked(eligible, picks)[j].embedding);
    if i < j {
      PicksAreDiverse(CosineSimilarity(sqrt), query, w, eligible, picks, i, j);
    } else {
      PicksAreDiverse(CosineSimilarity(sqrt), query, w, eligible, picks, j, i);
    }
  }

  /** Every pick after the first has an embedding. */
  lemma LaterPicksAreEmbedded(cos: Similarity, query: seq<real>, w: Weights, eligible: seq<RecallResult>,
                              picks: seq<nat>, j: nat)
    requires Greedy(Rank(cos, query, w), eligible, picks) && 0 < j < |picks|
    ensures Picked(eligible, picks)[j].embedding != []
    ensures forall i :: 0 <= i < j ==> picks[i] != picks[j]
  {
    assert IsBest(Rank(cos, query, w), eligible, picks[..j], Picked(eligible, picks)[..j], picks[j]);
    assert forall i :: 0 <= i < j ==> picks[..j][i] == picks[i];
  }

  lemma WeightedAbove(lambda: real, x: real, y: real)
    requires 0.0 <= lambda < 1.0 && -1.0 <= x && y < 1.0
    ensures Weigh(lambda, x, y) > -1.0
  {
    var p, q := lambda * (x + 1.0), (1.0 - lambda) * (1.0 - y);
    Arithmetic.ProductSign(lambda, x + 1.0, p);
    Arithmetic.ProductSign(1.0 - lambda, 1.0 - y, q);
    assert lambda * x - (1.0 - lambda) * y == p + q - 1.0;
  }

  /** With bounded similarities every admissible candidate scores above the starting value, so it can be picked. */
  lemma AdmissibleIsPickable(cos: Similarity, query: seq<real>, w: Weights, c: RecallResult,
                             selected: seq<RecallResult>)
    requires forall a, b :: -1.0 <= cos(a, b) <= 1.0
    requires 0.0 <= w.lambda < 1.0 && w.dedupThreshold <= 1.0
    ensures Pickable(Rank(cos, query, w), c, selected) <==> Admissible(cos, w, c, selected)
  {
    if Admissible(cos, w, c, selected) {
      WeightedAbove(w.lambda, cos(query, c.embedding), Redundancy(cos, c, selected));
    }
  }

  /** With a weight below one, MMR stops before k picks only when nothing left is both embedded and not redundant. */
  lemma StopsOnlyWhenRedundant(sqrt: real -> real, query: seq<real>, w: Weights, eligible: seq<RecallResult>,
                               picks: seq<nat>, q: nat)
    requires Cosine.IsSqrt(sqrt) && 0.0 <= w.lambda < 1.0 && w.dedupThreshold <= 1.0
    requires IsMmr(Rank(CosineSimilarity(sqrt), query, w), eligible, w.k, picks)
    requires |picks| < w.k && q < |eligible| && q !in picks
    ensures eligible[q].embedding == [] ||
            Redundancy(CosineSimilarity(sqrt), eligible[q], Picked(eligible, picks)) >= w.dedupThreshold
  {
    forall a, b ensures -1.0 <= CosineSimilarity(sqrt)(a, b) <= 1.0 { Cosine.CosineBounded(sqrt, a, b); }
    AdmissibleIsPickable(CosineSimilarity(sqrt), query, w, eligible[q], Picked(eligible, picks));
  }

  /**
   * Candidates that share one non-zero embedding, as all those of the vector search do, yield at most
   * one embedded pick; with an unembedded first candidate that makes at most two picks.
   */
  lemma SharedEmbeddingYieldsOne(sqrt: real -> real, query: seq<real>, w: Weights, eligible: seq<RecallResult>,
                                 picks: seq<nat>, e: seq<real>)
    requires Cosine.IsSqrt(sqrt) && w.dedupThreshold <= 1.0 && Cosine.NonZero(e)
    requires forall i :: 0 <= i < |eligible| ==> eligible[i].embedding == [] || eligible[i].embedding == e
    requires Greedy(Rank(CosineSimilarity(sqrt), query, w), eligible, picks)
    ensures |picks| <= 2
    ensures |picks| == 2 ==>
      Picked(eligible, picks)[0].embedding == [] && Picked(eligible, picks)[1].embedding == e
  {
    Cosine.CosineSelf(sqrt, e);
    var cos := CosineSimilarity(sqrt);
    if |picks| >= 2 {
      LaterPicksAreEmbedded(cos, query, w, eligible, picks, 1);
      if Picked(eligible, picks)[0].embedding != [] { PicksAreDiverse(cos, query, w, eligible, picks, 0, 1); }
      if |picks| >= 3 { PicksAreDiverse(cos, query, w, eligible, picks, 1, 2); }
    }
  }

  /** The specification leaves no choice: two results for the same candidates are the same. */
  lemma MmrIsUnique(rank: Ranking, eligible: seq<RecallResult>, k: int, a: seq<nat>, b: seq<nat>)
    requires IsMmr(rank, eligible, k, a) && IsMmr(rank, eligible, k, b)
    ensures a == b
  {
    if a != b {
      var n := FirstDifference(a, b);
      if n < |a| { PicksAgree(rank, eligible, k, a, b, n); } else { PicksAgree(rank, eligible, k, b, a, n); }
    }
  }

  /** Where two different lists part. */
  lemma {:induction false} FirstDifference(a: seq<nat>, b: seq<nat>) returns (n: nat)
    requires a != b
    ensures n <= |a| && n <= |b| && a[..n] == b[..n]
    ensures n < |a| && n < |b| ==> a[n] != b[n]
    ensures n < |a| || n < |b|
  {
    if a == [] || b == [] || a[0] != b[0] { return 0; }
    assert a == [a[0]] + a[1..] && b == [b[0]] + b[1..];
    var m := FirstDifference(a[1..], b[1..]);
    assert a[..m + 1] == [a[0]] + a[1..][..m] && b[..m + 1] == [b[0]] + b[1..][..m];
    return m + 1;
  }

  lemma SamePicked(eligible: seq<RecallResult>, a: seq<nat>, b: seq<nat>, n: nat)
    requires (forall p :: p in a ==> p < |eligible|) && (forall p :: p in b ==> p < |eligible|)
    requires n <= |a| && n <= |b| && a[..n] == b[..n]
    ensures Picked(eligible, a)[..n] == Picked(eligible, b)[..n]
  {
    forall i | 0 <= i < n ensures a[i] == b[i] { assert a[..n][i] == b[..n][i]; }
  }

  lemma PickMeansNotExhausted(rank: Ranking, eligible: seq<RecallResult>, a: seq<nat>, n: nat)
    requires Greedy(rank, eligible, a) && n < |a|
    ensures eligible != []
    ensures n > 0 ==> !Exhausted(rank, eligible, a[..n], Picked(eligible, a)[..n])
  {
    assert a[0] in a;
  }

  /** Where one result stops, the other makes no further pick. */
  lemma NoPickAfterEnd(rank: Ranking, eligible: seq<RecallResult>, k: int, a: seq<nat>, b: seq<nat>)
    requires IsMmr(rank, eligible, k, a) && IsMmr(rank, eligible, k, b)
    requires |b| <= |a| && a[..|b|] == b
    ensures |a| == |b|
  {
    assert b[..|b|] == b && Picked(eligible, b)[..|b|] == Picked(eligible, b);
    SamePicked(eligible, a, b, |b|);
    if |b| < |a| { PickMeansNotExhausted(rank, eligible, a, |b|); }
  }

  /** After the same picks, a further pick of one result is also a pick of the other. */
  lemma PicksAgree(rank: Ranking, eligible: seq<RecallResult>, k: int, a: seq<nat>, b: seq<nat>, n: nat)
    requires IsMmr(rank, eligible, k, a) && IsMmr(rank, eligible, k, b)
    requires n < |a| && n <= |b| && a[..n] == b[..n]
    ensures n < |b| && a[n] == b[n]
  {
    if |b| == n {
      assert b[..n] == b;
      NoPickAfterEnd(rank, eligible, k, a, b);
    } else if n > 0 {
      SamePicked(eligible, a, b, n);
      assert IsBest(rank, eligible, a[..n], Picked(eligible, a)[..n], a[n]);
      assert IsBest(rank, eligible, b[..n], Picked(eligible, b)[..n], b[n]);
    }
  }

  // ---- The same chunk twice ----

  lemma UnembeddedAddsNothing(cos: Similarity, c: RecallResult, first: RecallResult)
    requires first.embedding == []
    ensures Redundancy(cos, c, [first]) == 0.0
  {
    assert [first][1..] == [];
    assert Similarities(cos, c.embedding, [first]) == [] + Similarities(cos, c.embedding, []) == [];
  }

  /** Before a pick that has an embedding, every embedded candidate may be picked. */
  lemma EmbeddedIsPickable(sqrt: real -> real, query: seq<real>, w: Weights, c: RecallResult, first: RecallResult)
    requires Cosine.IsSqrt(sqrt) && 0.0 <= w.lambda < 1.0 && 0.0 < w.dedupThreshold <= 1.0
    requires first.embedding == [] && c.embedding != []
    ensures Pickable(Rank(CosineSimilarity(sqrt), query, w), c, [first])
  {
    UnembeddedAddsNothing(CosineSimilarity(sqrt), c, first);
    forall a, b ensures -1.0 <= CosineSimilarity(sqrt)(a, b) <= 1.0 { Cosine.CosineBounded(sqrt, a, b); }
    AdmissibleIsPickable(CosineSimilarity(sqrt), query, w, c, [first]);
  }

  lemma PickedPrefix(eligible: seq<RecallResult>, picks: seq<nat>)
    requires (forall p :: p in picks ==> p < |eligible|) && picks != [] && picks[0] == 0
    ensures eligible != [] && picks[..1] == [0] && Picked(eligible, picks)[..1] == [eligible[0]]
  {
    assert picks[0] in picks;
  }

  /** One pick where two are allowed means that nothing else may follow it. */
  lemma OnePickIsEnd(rank: Ranking, eligible: seq<RecallResult>, k: int, picks: seq<nat>, j: nat)
    requires IsMmr(rank, eligible, k, picks) && |picks| == 1 && k >= 2 && 0 < j < |eligible|
    ensures !Pickable(rank, eligible[j], [eligible[0]])
  {
    PickedPrefix(eligible, picks);
    assert picks == picks[..1] && Picked(eligible, picks) == Picked(eligible, picks)[..1];
  }

  lemma RankIs(cos: Similarity, query: seq<real>, w: Weights, c: RecallResult, selected: seq<RecallResult>)
    ensures Rank(cos, query, w)(c, selected) ==
            if Admissible(cos, w, c, selected) then Some(Score(cos, query, w, c, selected)) else None
  {
  }

  lemma SameEmbeddingSameRank(cos: Similarity, query: seq<real>, w: Weights, a: RecallResult, b: RecallResult,
                              selected: seq<RecallResult>)
    requires a.embedding == b.embedding
    ensures Rank(cos, query, w)(a, selected) == Rank(cos, query, w)(b, selected)
  {
    RankIs(cos, query, w, a, selected);
    RankIs(cos, query, w, b, selected);
    assert Redundancy(cos, a, selected) == Redundancy(cos, b, selected);
  }

  /** All embedded candidates tie, so the second pick is the first of them. */
  lemma SecondPickIsFirstEmbedded(sqrt: real -> real, query: seq<real>, w: Weights, eligible: seq<RecallResult>,
                                  picks: seq<nat>, j: nat)
    requires Cosine.IsSqrt(sqrt) && 0.0 <= w.lambda < 1.0 && 0.0 < w.dedupThreshold <= 1.0 && w.k >= 2
    requires Cosine.NonZero(query)
    requires forall i :: 0 <= i < |eligible| ==> eligible[i].embedding == [] || eligible[i].embedding == query
    requires IsMmr(Rank(CosineSimilarity(sqrt), query, w), eligible, w.k, picks)
    requires 0 < j < |eligible| && eligible[j].embedding != [] && forall i :: 0 <= i < j ==> eligible[i].embedding == []
    ensures picks == [0, j]
  {
    var rank := Rank(CosineSimilarity(sqrt), query, w);
    SharedEmbeddingYieldsOne(sqrt, query, w, eligible, picks, query);
    PickedPrefix(eligible, picks);
    EmbeddedIsPickable(sqrt, query, w, eligible[j], eligible[0]);
    if |picks| == 1 { OnePickIsEnd(rank, eligible, w.k, picks, j); }
    assert IsBest(rank, eligible, picks[..1], Picked(eligible, picks)[..1], picks[1]);
    SameEmbeddingSameRank(CosineSimilarity(sqrt), query, w, eligible[j], eligible[picks[1]], [eligible[0]]);
    assert picks[1] == j;
  }

  /** The first embedded candidate is not the first of all, and yet is the same chunk. */
  ghost predicate RepeatsFirst(eligible: seq<RecallResult>) {
    exists j: nat :: 0 < j < |eligible| && IsFirstEmbedded(eligible, j) && eligible[j].id == eligible[0].id
  }

  predicate IsFirstEmbedded(eligible: seq<RecallResult>, j: nat)
    requires j < |eligible|
  {
    eligible[j].embedding != [] && forall i :: 0 <= i < j ==> eligible[i].embedding == []
  }

  lemma {:induction false} FirstEmbedded(eligible: seq<RecallResult>, p: nat) returns (j: nat)
    requires p < |eligible| && eligible[p].embedding != []
    ensures j <= p && IsFirstEmbedded(eligible, j)
  {
    if forall i :: 0 <= i < p ==> eligible[i].embedding == [] {
      j := p;
    } else {
      var i: nat :| i < p && eligible[i].embedding != [];
      j := FirstEmbedded(eligible, i);
    }
  }

  /**
   * When a chunk is picked twice, if every embedding is the query's own: exactly when the first
   * eligible candidate has none, and the first that has one is the same chunk.
   */
  lemma ChunkTwiceIff(sqrt: real -> real, query: seq<real>, w: Weights, eligible: seq<RecallResult>, picks: seq<nat>)
    requires Cosine.IsSqrt(sqrt) && 0.0 <= w.lambda < 1.0 && 0.0 < w.dedupThreshold <= 1.0 && w.k >= 2
    requires Cosine.NonZero(query)
    requires forall i :: 0 <= i < |eligible| ==> eligible[i].embedding == [] || eligible[i].embedding == query
    requires IsMmr(Rank(CosineSimilarity(sqrt), query, w), eligible, w.k, picks)
    ensures !Distinct(Ids(Picked(eligible, picks))) <==> RepeatsFirst(eligible)
  {
    SharedEmbeddingYieldsOne(sqrt, query, w, eligible, picks, query);
    if RepeatsFirst(eligible) {
      var j: nat :| 0 < j < |eligible| && IsFirstEmbedded(eligible, j) && eligible[j].id == eligible[0].id;
      SecondPickIsFirstEmbedded(sqrt, query, w, eligible, picks, j);
      assert Ids(Picked(eligible, picks))[0] == Ids(Picked(eligible, picks))[1];
    }
    if |picks| == 2 {
      PickedPrefix(eligible, picks);
      assert picks[1] in picks;
      var j := FirstEmbedded(eligible, picks[1]);
      SecondPickIsFirstEmbedded(sqrt, query, w, eligible, picks, j);
      assert Ids(Picked(eligible, picks)) == [eligible[0].id, eligible[j].id];
    }
  }

  /**
   * An input on which it happens: a chunk found by both searches arrives once without and once with an
   * embedding, and nothing keeps both from being picked.
   */
  lemma SameChunkTwice(sqrt: real -> real, query: seq<real>, w: Weights, keyword: RecallResult, vector: RecallResult)
    requires Cosine.IsSqrt(sqrt) && 0.0 <= w.lambda < 1.0 && 0.0 < w.dedupThreshold <= 1.0 && w.k >= 2
    requires keyword.id == vector.id && keyword.embedding == [] && vector.embedding == query && query != []
    ensures IsMmr(Rank(CosineSimilarity(sqrt), query, w), [keyword, vector], w.k, [0, 1])
    ensures Picked([keyword, vector], [0, 1]) == [keyword, vector]
  {
    EmbeddedIsPickable(sqrt, query, w, vector, keyword);
    PicksBoth(Rank(CosineSimilarity(sqrt), query, w), keyword, vector);
  }

  lemma PicksBoth(rank: Ranking, first: RecallResult, second: RecallResult)
    requires Pickable(rank, second, [first])
    ensures Greedy(rank, [first, second], [0, 1]) && Picked([first, second], [0, 1]) == [first, second]
  {
    var eligible := [first, second];
    GreedyExtends(rank, eligible, [], 0);
    assert [] + [0] == [0] && Picked(eligible, [0]) == [first];
    assert IsBest(rank, eligible, [0], [first], 1);
    GreedyExtends(rank, eligible, [0], 1);
    assert [0] + [1] == [0, 1];
  }

  // ---- Which candidates compete, and for what ----

  /** The eligible candidates are those that score high enough, in the order found. */
  lemma EligibleInOrder(candidates: seq<RecallResult>, minScore: real) returns (at: seq<nat>)
    ensures Increasing(at) && |at| == |Eligible(candidates, minScore)|
    ensures forall p: nat :: p in at <==> p < |candidates| && candidates[p].score >= minScore
    ensures forall k :: 0 <= k < |at| ==> at[k] < |candidates| && Eligible(candidates, minScore)[k] == candidates[at[k]]
  {
    at := FilterInOrder(candidates, ScoresAtLeast(minScore));
  }

  /** What is selected starts with the first candidate found that scores high enough. */
  lemma FirstSelected(rank: Ranking, candidates: seq<RecallResult>, minScore: real, k: int, selected: seq<RecallResult>)
    returns (first: nat)
    requires IsSelection(rank, Eligible(candidates, minScore), k, selected) && k >= 1
    ensures first <= |candidates| && forall i :: 0 <= i < first ==> candidates[i].score < minScore
    ensures first == |candidates| ==> selected == []
    ensures first < |candidates| ==>
              candidates[first].score >= minScore && selected != [] && selected[0] == candidates[first]
  {
    var eligible := Eligible(candidates, minScore);
    var at := EligibleInOrder(candidates, minScore);
    SelectionStarts(rank, eligible, k, selected);
    if at == [] {
      first := |candidates|;
    } else {
      first := at[0];
      assert first in at;
      forall i: nat | i < first ensures candidates[i].score < minScore { FirstPlace(at, i); }
    }
  }

  lemma FirstPlace(at: seq<nat>, i: nat)
    requires Increasing(at) && at != [] && i < at[0]
    ensures i !in at
  {
  }

  lemma SelectionStarts(rank: Ranking, eligible: seq<RecallResult>, k: int, selected: seq<RecallResult>)
    requires IsSelection(rank, eligible, k, selected) && k >= 1
    ensures if eligible == [] then selected == [] else selected != [] && selected[0] == eligible[0]
  {
    var picks :| IsMmr(rank, eligible, k, picks) && selected == Picked(eligible, picks);
    assert forall i :: 0 <= i < |picks| ==> picks[i] in picks;
  }

  /** More relevance raises the score and more redundancy lowers it, in the proportion of the weight. */
  lemma WeighBalances(lambda: real, relevance: real, redundancy: real, x: real)
    ensures Weigh(lambda, relevance + x, redundancy) == Weigh(lambda, relevance, redundancy) + lambda * x
    ensures Weigh(lambda, relevance, redundancy + x) == Weigh(lambda, relevance, redundancy) - (1.0 - lambda) * x
    ensures Weigh(lambda, 0.0, 0.0) == 0.0
  {
  }
}
