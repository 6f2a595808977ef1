/**
 * What the reflection counter of an agent means over whole runs: a clamped account of episodic
 * memories stored and reflections written (src/qortia/remember.py, src/qortia/reflect.py).
 */
module ReflectionCounter {
  import opened Arithmetic
  import opened StoreModel
  import opened StoreRuns
  import Reflection
  import Remembering

  function CounterOf(s: State, a: AgentId): int {
    if a in s.agents then s.agents[a].counter else 0
  }

  /** What an event means for the counter: episodics newly inserted, less the threshold for a completed reflection. */
  function Delta(s: State, e: Event, a: AgentId): int
    requires e.DoRemember? ==> |e.b.items| == |e.b.ids|
    requires e.DoReflect? ==> |e.w.drafts| == |e.w.reply|
  {
    match e
    case DoRemember(b) =>
      if b.agent == a && Remembering.IsActive(s, a) then |Remembering.NewEpisodics(s.rows, b, |b.items|)| else 0
    case DoReflect(w, _) => if w.agent == a && Reflection.Commits(w) then -w.threshold else 0
    case _ => 0
  }

  ghost function Deltas(s: State, es: seq<Event>, threshold: int, a: AgentId): seq<int>
    requires IsRun(s, es, threshold)
    decreases |es|
  {
    if es == [] then [] else [Delta(s, es[0], a)] + Deltas(Step(s, es[0], threshold), es[1..], threshold, a)
  }

  function Sum(ds: seq<int>): int {
    if ds == [] then 0 else ds[0] + Sum(ds[1..])
  }

  /** `v` is the largest sum of a suffix; the empty suffix counts, with sum zero. */
  ghost predicate IsMaxSuffixSum(ds: seq<int>, v: int) {
    && (forall j :: 0 <= j <= |ds| ==> Sum(ds[j..]) <= v)
    && (exists j :: 0 <= j <= |ds| && Sum(ds[j..]) == v)
  }

  /** The counter after one step. */
  lemma CounterStep(s: State, e: Event, threshold: int, a: AgentId)
    requires Enabled(s, e, threshold) && CounterOf(s, a) >= 0
    ensures CounterOf(Step(s, e, threshold), a) == Reflection.Clamp(CounterOf(s, a) + Delta(s, e, a))
  {
    match e
    case DoGraph(ids) => GraphFrame(s, ids);
    case DoRemember(b) => Remembering.EpisodicsAreCounted(s.rows, b, |b.items|);
    case _ =>
  }

  lemma MaxSuffixOfLonger(d: int, ds: seq<int>, v: int)
    requires IsMaxSuffixSum(ds, v)
    ensures IsMaxSuffixSum([d] + ds, if d + Sum(ds) > v then d + Sum(ds) else v)
  {
    var all := [d] + ds;
    assert all[0..] == all && all[1..] == ds;
    forall j | 0 <= j <= |all| ensures Sum(all[j..]) <= if d + Sum(ds) > v then d + Sum(ds) else v {
      if j > 0 { assert all[j..] == ds[j - 1..]; }
    }
    if d + Sum(ds) <= v {
      var j :| 0 <= j <= |ds| && Sum(ds[j..]) == v;
      assert all[j + 1..] == ds[j..];
    }
  }

  /** From any start: the larger of the start plus everything, and the largest suffix sum. */
  lemma {:induction false} CounterAfterRun(s: State, es: seq<Event>, threshold: int, a: AgentId)
    returns (v: int)
    requires IsRun(s, es, threshold) && CounterOf(s, a) >= 0
    ensures IsMaxSuffixSum(Deltas(s, es, threshold, a), v)
    ensures CounterOf(Run(s, es, threshold), a) ==
            if CounterOf(s, a) + Sum(Deltas(s, es, threshold, a)) > v
            then CounterOf(s, a) + Sum(Deltas(s, es, threshold, a)) else v
    decreases |es|
  {
    if es == [] {
      v := 0;
      var none: seq<int> := [];
      assert Sum(none[0..]) == 0;
    } else {
      var next, d := Step(s, es[0], threshold), Delta(s, es[0], a);
      CounterStep(s, es[0], threshold, a);
      var u := CounterAfterRun(next, es[1..], threshold, a);
      var ds := Deltas(next, es[1..], threshold, a);
      assert ds[0..] == ds;
      assert Sum(ds[0..]) <= u;
      MaxSuffixOfLonger(d, ds, u);
      assert ([d] + ds)[1..] == ds;
      v := if d + Sum(ds) > u then d + Sum(ds) else u;
      NonNegativeMax(ds, u);
    }
  }

  lemma NonNegativeMax(ds: seq<int>, v: int)
    requires IsMaxSuffixSum(ds, v)
    ensures v >= 0
  {
    assert ds[|ds|..] == [];
    assert Sum(ds[|ds|..]) <= v;
  }

  /**
   * Starting at zero, the counter is the maximum over all suffixes of the run of episodics newly
   * inserted minus the threshold for each reflection write.
   */
  lemma CounterIsMaxSuffix(s: State, es: seq<Event>, threshold: int, a: AgentId)
    requires IsRun(s, es, threshold) && CounterOf(s, a) == 0
    ensures IsMaxSuffixSum(Deltas(s, es, threshold, a), CounterOf(Run(s, es, threshold), a))
  {
    var v := CounterAfterRun(s, es, threshold, a);
    var ds := Deltas(s, es, threshold, a);
    assert ds[0..] == ds;
    assert Sum(ds[0..]) <= v;
  }

  // ---- Idle-triggered reflections ----

  /** The episodic memories of the agent newly inserted in a run. */
  ghost function Episodics(s: State, es: seq<Event>, threshold: int, a: AgentId): nat
    requires IsRun(s, es, threshold)
    decreases |es|
  {
    if es == [] then 0
    else (if Delta(s, es[0], a) > 0 && es[0].DoRemember? then Delta(s, es[0], a) else 0)
         + Episodics(Step(s, es[0], threshold), es[1..], threshold, a)
  }

  /** The reflections of the agent that the idle trigger started and that committed. */
  function IdleCount(es: seq<Event>, a: AgentId): nat
    requires forall i :: 0 <= i < |es| && es[i].DoReflect? ==> |es[i].w.drafts| == |es[i].w.reply|
  {
    if es == [] then 0
    else (if es[0].DoReflect? && es[0].idle && es[0].w.agent == a && Reflection.Commits(es[0].w) then 1 else 0)
         + IdleCount(es[1..], a)
  }

  lemma {:induction false} RunIsDrafted(s: State, es: seq<Event>, threshold: int)
    requires IsRun(s, es, threshold)
    ensures forall i :: 0 <= i < |es| && es[i].DoReflect? ==> |es[i].w.drafts| == |es[i].w.reply|
    decreases |es|
  {
    if es == [] {
    } else {
      RunIsDrafted(Step(s, es[0], threshold), es[1..], threshold);
      forall i | 0 < i < |es| ensures es[i] == es[1..][i - 1] {}
    }
  }

  /** The counter pays for every idle reflection: threshold times their number never exceeds what was put in. */
  lemma {:induction false} IdleReflectionsArePaidFor(s: State, es: seq<Event>, threshold: int, a: AgentId)
    requires threshold > 0 && IsRun(s, es, threshold) && CounterOf(s, a) >= 0
    requires forall i :: 0 <= i < |es| && es[i].DoReflect? ==> |es[i].w.drafts| == |es[i].w.reply|
    ensures CounterOf(Run(s, es, threshold), a) >= 0
    ensures threshold * IdleCount(es, a) + CounterOf(Run(s, es, threshold), a)
              <= CounterOf(s, a) + Episodics(s, es, threshold, a)
    decreases |es|
  {
    if es == [] {
    } else {
      CounterStep(s, es[0], threshold, a);
      forall i | 0 <= i < |es[1..]| ensures es[1..][i] == es[i + 1] {}
      IdleReflectionsArePaidFor(Step(s, es[0], threshold), es[1..], threshold, a);
      assert threshold * (1 + IdleCount(es[1..], a)) == threshold + threshold * IdleCount(es[1..], a);
    }
  }

  /** Completed idle-triggered reflections never exceed the episodic memories divided by the threshold, rounded down. */
  lemma IdleReflectionsAreBounded(s: State, es: seq<Event>, threshold: int, a: AgentId)
    requires threshold > 0 && IsRun(s, es, threshold) && CounterOf(s, a) == 0
    requires forall i :: 0 <= i < |es| && es[i].DoReflect? ==> |es[i].w.drafts| == |es[i].w.reply|
    ensures IdleCount(es, a) <= Episodics(s, es, threshold, a) / threshold
  {
    IdleReflectionsArePaidFor(s, es, threshold, a);
    Divides(threshold, IdleCount(es, a), Episodics(s, es, threshold, a));
  }

  lemma Divides(t: int, k: nat, n: nat)
    requires t > 0 && t * k <= n
    ensures k <= n / t
  {
    assert n < t * (n / t) + t;
    if n / t < k { StepsApart(t, n / t, k); }
  }
}
