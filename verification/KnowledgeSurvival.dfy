/**
 * How much consolidated knowledge survives whole runs of the memory store, in which reflections of
 * one agent are interleaved with every other event of every agent.
 */
module KnowledgeSurvival {
  import opened Arithmetic
  import opened StoreModel
  import opened StoreRuns
  import Reflection
  import Remembering
  import EntityIndex

  /** A reflection write for the agent that commits. */
  predicate ReflectsFor(e: Event, a: AgentId) {
    e.DoReflect? && e.w.agent == a && |e.w.drafts| == |e.w.reply| && Reflection.Commits(e.w)
  }

  /** The reflection writes of an agent in a run. */
  function ReflectCount(es: seq<Event>, a: AgentId): nat {
    if es == [] then 0 else (if ReflectsFor(es[0], a) then 1 else 0) + ReflectCount(es[1..], a)
  }

  /** Each write for the agent names distinct rows consolidated at that time. */
  ghost predicate GoodRun(s: State, es: seq<Event>, threshold: int, a: AgentId)
    requires IsRun(s, es, threshold)
    decreases |es|
  {
    es != [] ==>
      && (ReflectsFor(es[0], a) ==> Reflection.GoodIds(s.rows, es[0].w))
      && GoodRun(Step(s, es[0], threshold), es[1..], threshold, a)
  }

  /** The agent asks for a memory of its own to be forgotten, and the memory is consolidated. */
  predicate ForgetsKnowledge(s: State, e: Event, a: AgentId) {
    e.DoForget? && e.agent == a && MayForget(s, a, e.target) && e.target in Consolidated(s.rows, a)
  }

  /** The consolidated rows that the agent itself removes in a run. */
  ghost function Forgets(s: State, es: seq<Event>, threshold: int, a: AgentId): nat
    requires IsRun(s, es, threshold)
    decreases |es|
  {
    if es == [] then 0
    else (if ForgetsKnowledge(s, es[0], a) then 1 else 0) + Forgets(Step(s, es[0], threshold), es[1..], threshold, a)
  }

  /** `x` doubled `k` times. */
  function Doubled(k: nat, x: nat): nat {
    if k == 0 then x else 2 * Doubled(k - 1, x)
  }

  lemma {:induction false} StoringConsolidatesNothing(rows: Memories, b: Remembering.Batch, n: nat, a: AgentId)
    requires n <= |b.items| && Remembering.FreshIds(rows, b)
    ensures Consolidated(Remembering.Stored(rows, b, n), a) == Consolidated(rows, a)
  {
    if n == 0 {
    } else {
      StoringConsolidatesNothing(rows, b, n - 1, a);
      Remembering.IdIsNew(rows, b, n - 1);
    }
  }

  /** A reflection for one agent leaves the consolidated rows of every other agent alone. */
  lemma OthersKeepKnowledge(s: State, w: Reflection.Write, a: AgentId)
    requires Reflection.FreshDrafts(s.rows, w) && w.agent in s.agents && w.agent != a
    ensures Consolidated(Reflection.WriteReflections(s, w).rows, a) == Consolidated(s.rows, a)
  {
    if Reflection.Commits(w) {
      var after := Reflection.Applied(s.rows, w, |w.reply|);
      AppliedRows(s.rows, w, |w.reply|);
      forall id | id in s.rows && s.rows[id].agent == a ensures after[id] == s.rows[id] {
        Reflection.OthersUntouched(s.rows, w, |w.reply|, id);
      }
      forall id | id in after && id !in s.rows ensures after[id].agent == w.agent {
        NewRowsAreOwn(s.rows, w, |w.reply|, id);
      }
    }
  }

  lemma {:induction false} NewRowsAreOwn(rows: Memories, w: Reflection.Write, n: nat, id: Id)
    requires n <= |w.reply| && Reflection.FreshDrafts(rows, w) && id in Reflection.Applied(rows, w, n) && id !in rows
    ensures Reflection.Applied(rows, w, n)[id].agent == w.agent
  {
    if n == 0 {
    } else if id in Reflection.Applied(rows, w, n - 1) {
      NewRowsAreOwn(rows, w, n - 1, id);
    }
  }

  lemma ReflectionKeepsOthers(s: State, w: Reflection.Write, a: AgentId)
    requires Reflection.FreshDrafts(s.rows, w) && w.agent in s.agents && !(w.agent == a && Reflection.Commits(w))
    ensures Consolidated(Reflection.WriteReflections(s, w).rows, a) == Consolidated(s.rows, a)
  {
    if w.agent != a { OthersKeepKnowledge(s, w, a); }
  }

  /** Changes of other columns change no consolidation. */
  lemma SameConsolidation(rows: Memories, rows': Memories, a: AgentId)
    requires rows'.Keys == rows.Keys
    requires forall id :: id in rows ==>
      rows'[id].agent == rows[id].agent && rows'[id].consolidated == rows[id].consolidated
    ensures Consolidated(rows', a) == Consolidated(rows, a)
  {
  }

  lemma GraphKeepsKnowledge(s: State, ids: seq<Id>, a: AgentId)
    requires forall i :: 0 <= i < |ids| ==> ids[i] in s.rows
    ensures Consolidated(EntityIndex.Graphed(s, ids, |ids|).rows, a) == Consolidated(s.rows, a)
  {
    GraphFrame(s, ids);
    SameConsolidation(s.rows, EntityIndex.Graphed(s, ids, |ids|).rows, a);
  }

  lemma ForgetKeepsOthers(s: State, b: AgentId, m: Id, a: AgentId)
    requires !ForgetsKnowledge(s, DoForget(b, m), a)
    ensures Consolidated(Forget(s, b, m).rows, a) == Consolidated(s.rows, a)
  {
  }

  /** Short-term rows are never consolidated, so purging them loses no knowledge. */
  lemma PurgeKeepsKnowledge(s: State, now: Time, a: AgentId)
    requires Reflection.Sound(s.rows)
    ensures Consolidated(Purge(s, now).rows, a) == Consolidated(s.rows, a)
  {
  }

  /** Every event but a reflection for the agent, or its forgetting one of them, keeps its consolidated rows. */
  lemma OtherEventsKeepKnowledge(s: State, e: Event, threshold: int, a: AgentId)
    requires Valid(s) && Enabled(s, e, threshold)
    requires !ReflectsFor(e, a) && !ForgetsKnowledge(s, e, a)
    ensures Consolidated(Step(s, e, threshold).rows, a) == Consolidated(s.rows, a)
  {
    match e
    case DoRemember(b) => StoringConsolidatesNothing(s.rows, b, |b.items|, a);
    case DoReflect(w, _) => ReflectionKeepsOthers(s, w, a);
    case DoGraph(ids) => GraphKeepsKnowledge(s, ids, a);
    case DoLink(_, _, _) =>
    case DoForget(b, m) => ForgetKeepsOthers(s, b, m, a);
    case DoPurge(now) => PurgeKeepsKnowledge(s, now, a);
    case DoArchive(ids) => SameConsolidation(s.rows, Archive(s, ids).rows, a);
  }

  lemma ForgetRemovesOne(s: State, m: Id, a: AgentId)
    requires ForgetsKnowledge(s, DoForget(a, m), a)
    ensures |Consolidated(Forget(s, a, m).rows, a)| + 1 == |Consolidated(s.rows, a)|
  {
    assert Consolidated(Forget(s, a, m).rows, a) == Consolidated(s.rows, a) - {m};
  }

  /** One event: a reflection for the agent keeps half, forgetting a consolidated row takes one, others take none. */
  lemma KnowledgeStep(s: State, e: Event, threshold: int, a: AgentId)
    requires Valid(s) && Enabled(s, e, threshold) && (ReflectsFor(e, a) ==> Reflection.GoodIds(s.rows, e.w))
    ensures var before, after := |Consolidated(s.rows, a)|, |Consolidated(Step(s, e, threshold).rows, a)|;
            if ReflectsFor(e, a) then 2 * after >= before
            else after + (if ForgetsKnowledge(s, e, a) then 1 else 0) == before
  {
    if ReflectsFor(e, a) {
      Reflection.HalfSurvivesWrite(s, e.w);
    } else if ForgetsKnowledge(s, e, a) {
      ForgetRemovesOne(s, e.target, a);
    } else {
      OtherEventsKeepKnowledge(s, e, threshold, a);
    }
  }

  /** What a run does to the consolidated rows of an agent: its reflection writes, the rows it forgets, those left. */
  datatype Fate = Fate(reflections: nat, forgotten: nat, left: nat)

  ghost predicate IsFate(s: State, es: seq<Event>, threshold: int, a: AgentId, f: Fate)
    requires IsRun(s, es, threshold)
  {
    && f.reflections == ReflectCount(es, a)
    && f.forgotten == Forgets(s, es, threshold, a)
    && f.left == |Consolidated(Run(s, es, threshold).rows, a)|
  }

  function FateAfter(s: State, e: Event, a: AgentId, f: Fate): Fate {
    Fate((if ReflectsFor(e, a) then 1 else 0) + f.reflections,
         (if ForgetsKnowledge(s, e, a) then 1 else 0) + f.forgotten,
         f.left)
  }

  lemma FateUnfolds(s: State, es: seq<Event>, threshold: int, a: AgentId, f: Fate)
    requires es != [] && IsRun(s, es, threshold) && IsFate(Step(s, es[0], threshold), es[1..], threshold, a, f)
    ensures IsFate(s, es, threshold, a, FateAfter(s, es[0], a, f))
  {
  }

  /** Doubled once for every reflection, the rows left and forgotten are no fewer than there were. */
  predicate Survives(f: Fate, count: nat) {
    Doubled(f.reflections, f.left + f.forgotten) >= count
  }

  lemma SurvivesStep(s: State, e: Event, a: AgentId, f: Fate, before: nat, after: nat)
    requires Survives(f, after)
    requires if ReflectsFor(e, a) then 2 * after >= before
             else after + (if ForgetsKnowledge(s, e, a) then 1 else 0) == before
    ensures Survives(FateAfter(s, e, a, f), before)
  {
    DoubledGrows(f.reflections, f.left + f.forgotten, if ForgetsKnowledge(s, e, a) then 1 else 0);
  }

  /**
   * k reflection writes leave at least c / 2^k of c consolidated rows, counting those that the agent
   * itself forgot.
   */
  lemma {:induction false} KnowledgeSurvives(s: State, es: seq<Event>, threshold: int, a: AgentId) returns (f: Fate)
    requires Valid(s) && IsRun(s, es, threshold) && GoodRun(s, es, threshold, a)
    ensures IsFate(s, es, threshold, a, f) && Survives(f, |Consolidated(s.rows, a)|)
    decreases |es|
  {
    if es == [] {
      f := Fate(0, 0, |Consolidated(s.rows, a)|);
    } else {
      var next := Step(s, es[0], threshold);
      StepKeepsValid(s, es[0], threshold);
      var rest := KnowledgeSurvives(next, es[1..], threshold, a);
      KnowledgeStep(s, es[0], threshold, a);
      FateUnfolds(s, es, threshold, a, rest);
      SurvivesStep(s, es[0], a, rest, |Consolidated(s.rows, a)|, |Consolidated(next.rows, a)|);
      f := FateAfter(s, es[0], a, rest);
    }
  }

  lemma {:induction false} DoubledGrows(k: nat, x: nat, g: nat)
    ensures Doubled(k, g + x) >= Doubled(k, x) + g
  {
    if k == 0 {
    } else {
      DoubledGrows(k - 1, x, g);
    }
  }

  /** Doubling k times is multiplying by 2^k. */
  lemma {:induction false} DoubledIsProduct(k: nat, x: nat)
    ensures Doubled(k, x) == Doubled(k, 1) * x && Doubled(k, 1) > 0
  {
    if k == 0 {
    } else {
      DoubledIsProduct(k - 1, x);
      Associates(2, Doubled(k - 1, 1), x);
    }
  }

  lemma Associates(a: nat, b: nat, c: nat)
    ensures (a * b) * c == a * (b * c)
  {
  }

  /**
   * The bound in whole rows, c / 2^k rounded up: as long as the agent itself forgets fewer than that
   * many, a non-empty set never becomes empty.
   */
  lemma KnowledgeNeverVanishes(s: State, es: seq<Event>, threshold: int, a: AgentId) returns (f: Fate)
    requires Valid(s) && IsRun(s, es, threshold) && GoodRun(s, es, threshold, a)
    ensures IsFate(s, es, threshold, a, f)
    ensures var bound := CeilDiv(|Consolidated(s.rows, a)|, Doubled(f.reflections, 1));
            && f.left + f.forgotten >= bound
            && (f.forgotten < bound ==> f.left > 0)
            && (f.forgotten == 0 && Consolidated(s.rows, a) != {} ==> f.left > 0)
    ensures Forgets(s, es, threshold, a) == 0 && Consolidated(s.rows, a) != {} ==>
              Consolidated(Run(s, es, threshold).rows, a) != {}
  {
    f := KnowledgeSurvives(s, es, threshold, a);
    RoundUp(f.reflections, f.left + f.forgotten, |Consolidated(s.rows, a)|);
  }

  /** c / p rounded up. */
  function CeilDiv(c: nat, p: nat): nat {
    if p == 0 then 0 else (c + p - 1) / p
  }

  lemma RoundUp(k: nat, x: nat, c: nat)
    requires Doubled(k, x) >= c
    ensures Doubled(k, 1) > 0 && x >= CeilDiv(c, Doubled(k, 1)) && (c > 0 ==> x > 0)
  {
    DoubledIsProduct(k, x);
    AtLeastCeil(Doubled(k, 1), x, Doubled(k, x), c);
  }

  lemma AtLeastCeil(p: nat, x: nat, q: nat, c: nat)
    requires p > 0 && q == p * x && q >= c
    ensures x >= CeilDiv(c, p) && (c > 0 ==> x > 0)
  {
    assert p * CeilDiv(c, p) <= c + p - 1;
    if x < CeilDiv(c, p) { StepsApart(p, x, CeilDiv(c, p)); }
  }
}
