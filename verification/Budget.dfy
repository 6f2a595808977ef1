/**
 * The two character budgets: the cut of recall results (src/qortia/recall_helpers.py) and the cut
 * of the context memories across their buckets (src/qortia/remember.py).
 */
module Budget {
  import opened Wrappers
  import opened Results
  import opened Collections
  import opened Ranking

  /** The combined cost of the first `n` entries. */
  function Total(costs: seq<nat>, n: nat): nat
    requires n <= |costs|
  {
    if n == 0 then 0 else Total(costs, n - 1) + costs[n - 1]
  }

  /** Recall keeps the first entry always, a later one while the budget is not reached and it fits. */
  predicate RecallKeeps(costs: seq<nat>, budget: int, i: nat)
    requires i < |costs|
  {
    i == 0 || (Total(costs, i) < budget && Total(costs, i + 1) <= budget)
  }

  /** The context keeps an entry that fits, and any while nothing has been spent. */
  predicate ContextKeeps(costs: seq<nat>, budget: int, i: nat)
    requires i < |costs|
  {
    Total(costs, i) == 0 || Total(costs, i + 1) <= budget
  }

  /** Both stop at the first entry they do not keep. */
  ghost predicate IsRecallCut(costs: seq<nat>, budget: int, n: nat) {
    && n <= |costs|
    && (forall i :: 0 <= i < n ==> RecallKeeps(costs, budget, i))
    && (n < |costs| ==> !RecallKeeps(costs, budget, n))
  }

  ghost predicate IsContextCut(costs: seq<nat>, budget: int, n: nat) {
    && n <= |costs|
    && (forall i :: 0 <= i < n ==> ContextKeeps(costs, budget, i))
    && (n < |costs| ==> !ContextKeeps(costs, budget, n))
  }

  lemma {:induction false} TotalGrows(costs: seq<nat>, m: nat, n: nat)
    requires m <= n <= |costs|
    ensures Total(costs, m) <= Total(costs, n)
  {
    if m == n {
    } else {
      TotalGrows(costs, m, n - 1);
    }
  }

  /** The recall cut never keeps more than the context cut. */
  lemma RecallCutIsShorter(costs: seq<nat>, budget: int, n: nat, m: nat)
    requires budget > 0 && IsRecallCut(costs, budget, n) && IsContextCut(costs, budget, m)
    ensures n <= m
  {
    assert forall i :: 0 <= i < n ==> RecallKeeps(costs, budget, i) && ContextKeeps(costs, budget, i);
  }

  /**
   * Entry `i` is one the context keeps where recall stops: it alone exceeds the budget after nothing
   * but empty entries, or it is empty and the budget is spent to the last character.
   */
  predicate PartsAt(costs: seq<nat>, budget: int, i: nat)
    requires i < |costs|
  {
    || (Total(costs, i) == 0 && costs[i] > budget)
    || (Total(costs, i) == budget && costs[i] == 0)
  }

  /** The two cuts agree exactly when no entry after the first is of that kind. */
  lemma CutsAgreeIff(costs: seq<nat>, budget: int, n: nat, m: nat)
    requires budget > 0 && IsRecallCut(costs, budget, n) && IsContextCut(costs, budget, m)
    ensures n == m <==> !exists i :: 0 < i < |costs| && PartsAt(costs, budget, i)
  {
    RecallCutIsShorter(costs, budget, n, m);
    if n < m {
      assert ContextKeeps(costs, budget, n);
      assert PartsAt(costs, budget, n);
    }
    forall i | 0 < i < |costs| && PartsAt(costs, budget, i) ensures n < m {
      PartingCutsDiffer(costs, budget, n, m, i);
    }
  }

  lemma PartingCutsDiffer(costs: seq<nat>, budget: int, n: nat, m: nat, i: nat)
    requires budget > 0 && IsRecallCut(costs, budget, n) && IsContextCut(costs, budget, m)
    requires 0 < i < |costs| && PartsAt(costs, budget, i)
    ensures n < m
  {
    assert !RecallKeeps(costs, budget, i);
    assert n <= i;
    RecallCutIsShorter(costs, budget, n, m);
    TotalGrows(costs, n, i);
    if n < i { TotalGrows(costs, n + 1, i); }
    assert ContextKeeps(costs, budget, n);
  }

  lemma CutsAgreeOnNonEmpty(costs: seq<nat>, budget: int, n: nat, m: nat)
    requires budget > 0 && forall i :: 0 <= i < |costs| ==> costs[i] > 0
    requires IsRecallCut(costs, budget, n) && IsContextCut(costs, budget, m)
    ensures n == m
  {
    CutsAgreeIff(costs, budget, n, m);
    forall i | 0 < i < |costs| ensures !PartsAt(costs, budget, i) {
      TotalGrows(costs, 1, i);
      assert Total(costs, 1) == Total(costs, 0) + costs[0];
    }
  }

  /** On empty entries they part: here recall keeps one entry and the context keeps two. */
  lemma CutsPartOnEmpty()
    ensures IsRecallCut([5, 0], 5, 1) && IsContextCut([5, 0], 5, 2)
  {
    assert Total([5, 0], 1) == Total([5, 0], 0) + 5;
    assert Total([5, 0], 2) == Total([5, 0], 1) + 0;
  }

  /** The kept entries stay within the budget, unless a single non-empty one exceeds it by itself. */
  lemma ContextStaysWithin(costs: seq<nat>, budget: int, n: nat)
    requires budget > 0 && IsContextCut(costs, budget, n)
    ensures Total(costs, n) <= budget || (n > 0 && Total(costs, n) == costs[n - 1])
  {
  }

  // ---- Recall ----

  function Lengths(results: seq<RecallResult>): seq<nat> {
    seq(|results|, i requires 0 <= i < |results| => |results[i].content|)
  }

  /** The server default applies unless the caller names a budget. */
  function ResolveMaxChars(requested: Option<int>, serverDefault: int): int {
    if requested.Some? then requested.value else serverDefault
  }

  method ApplyCharBudget(results: seq<RecallResult>, maxChars: int) returns (kept: seq<RecallResult>)
    ensures kept <= results && IsRecallCut(Lengths(results), maxChars, |kept|)
  {
    kept := [];
    var used := 0;
    for i := 0 to |results|
      invariant kept == results[..i]
      invariant used == Total(Lengths(results), i)
      invariant i > 0 ==> used < maxChars
      invariant forall j :: 0 <= j < i ==> RecallKeeps(Lengths(results), maxChars, j)
    {
      var cost := |results[i].content|;
      assert Total(Lengths(results), i + 1) == used + cost;
      if kept != [] && used + cost > maxChars { return; }
      kept := kept + [results[i]];
      used := used + cost;
      if used >= maxChars {
        assert i + 1 < |results| ==> !RecallKeeps(Lengths(results), maxChars, i + 1);
        return;
      }
    }
  }

  // ---- Context ----

  datatype MemoryEntry = MemoryEntry(title: Option<string>, content: string, importance: Option<real>)

  datatype Bucket = MentalModels | Decisions | Lessons

  /** An entry with its place; the place is what tells equal entries apart. */
  datatype Tagged = Tagged(entry: MemoryEntry, bucket: Bucket, position: nat)

  datatype ContextMemories = ContextMemories(mentalModels: seq<MemoryEntry>, decisions: seq<MemoryEntry>,
                                             lessons: seq<MemoryEntry>)

  function Tag(entries: seq<MemoryEntry>, bucket: Bucket): seq<Tagged> {
    seq(|entries|, i requires 0 <= i < |entries| => Tagged(entries[i], bucket, i))
  }

  function TagAll(m: ContextMemories): seq<Tagged> {
    Tag(m.mentalModels, MentalModels) + Tag(m.decisions, Decisions) + Tag(m.lessons, Lessons)
  }

  function Importance(t: Tagged): real {
    if t.entry.importance.Some? then t.entry.importance.value else 0.0
  }

  function Costs(tagged: seq<Tagged>): seq<nat> {
    seq(|tagged|, i requires 0 <= i < |tagged| => |tagged[i].entry.content|)
  }

  /** The entries of a bucket whose places are kept, in their original order. */
  function Restore(entries: seq<MemoryEntry>, bucket: Bucket, keep: set<Tagged>): seq<MemoryEntry> {
    if entries == [] then []
    else
      var n := |entries| - 1;
      Restore(entries[..n], bucket, keep) + if Tagged(entries[n], bucket, n) in keep then [entries[n]] else []
  }

  function RestoreAll(m: ContextMemories, keep: set<Tagged>): ContextMemories {
    ContextMemories(Restore(m.mentalModels, MentalModels, keep), Restore(m.decisions, Decisions, keep),
                    Restore(m.lessons, Lessons, keep))
  }

  /** `keep` is what the budget keeps of the merged buckets, most important first. */
  ghost predicate IsKept(m: ContextMemories, budget: int, keep: set<Tagged>) {
    exists ranked, n :: IsCutOf(TagAll(m), ranked, budget, n, keep)
  }

  ghost predicate IsCutOf(all: seq<Tagged>, ranked: seq<Tagged>, budget: int, n: nat, keep: set<Tagged>) {
    && IsRanking(all, Importance, ranked) && n <= |ranked|
    && IsContextCut(Costs(ranked), budget, n)
    && keep == (set t | t in ranked[..n])
  }

  method CutRanked(ranked: seq<Tagged>, budget: int) returns (keep: set<Tagged>, ghost n: nat)
    ensures n <= |ranked| && IsContextCut(Costs(ranked), budget, n) && keep == (set t | t in ranked[..n])
  {
    keep, n := {}, 0;
    var used := 0;
    for i := 0 to |ranked|
      invariant n == i && used == Total(Costs(ranked), i)
      invariant keep == (set t | t in ranked[..i])
      invariant forall j :: 0 <= j < i ==> ContextKeeps(Costs(ranked), budget, j)
    {
      var cost := |ranked[i].entry.content|;
      assert Total(Costs(ranked), i + 1) == used + cost;
      if used + cost > budget && used > 0 { break; }
      assert ranked[..i + 1] == ranked[..i] + [ranked[i]];
      keep := keep + {ranked[i]};
      used := used + cost;
      n := i + 1;
    }
  }

  method BudgetMemories(m: ContextMemories, budget: Option<int>)
    returns (kept: ContextMemories, ghost keep: set<Tagged>)
    ensures budget == None || budget.value <= 0 ==> kept == m
    ensures budget.Some? && budget.value > 0 ==> IsKept(m, budget.value, keep) && kept == RestoreAll(m, keep)
  {
    keep := {};
    if budget == None || budget.value <= 0 { return m, keep; }
    var all := TagAll(m);
    var ranked := SortDescending(all, Importance);
    SortRanks(all, Importance);
    var cut;
    ghost var n;
    cut, n := CutRanked(ranked, budget.value);
    assert IsCutOf(all, ranked, budget.value, n, cut);
    kept, keep := RestoreAll(m, cut), cut;
  }

  /** No dropped entry outranks a kept one, in whatever buckets they are. */
  lemma NoDroppedOutranksKept(m: ContextMemories, budget: int, keep: set<Tagged>, x: Tagged, y: Tagged)
    requires IsKept(m, budget, keep) && x in keep && y in TagAll(m) && y !in keep
    ensures Precedes(TagAll(m), Importance, x, y)
    ensures x.entry.importance.Some? && y.entry.importance.Some? ==>
              x.entry.importance.value >= y.entry.importance.value
    ensures x.entry.importance == None && y.entry.importance.Some? ==> y.entry.importance.value <= 0.0
  {
    var ranked, n :| IsCutOf(TagAll(m), ranked, budget, n, keep);
    MultisetMember(TagAll(m), ranked, y);
    var i :| 0 <= i < n && ranked[..n][i] == x;
    var j :| 0 <= j < |ranked| && ranked[j] == y;
    forall k | 0 <= k < n ensures ranked[k] in keep { assert ranked[..n][k] == ranked[k]; }
    assert Precedes(TagAll(m), Importance, ranked[i], ranked[j]);
  }

  /** A restored bucket is a subsequence of the original: exactly the kept places, in order. */
  lemma {:induction false} RestoreIsSubsequence(entries: seq<MemoryEntry>, bucket: Bucket, keep: set<Tagged>)
    returns (at: seq<nat>)
    ensures Increasing(at) && |at| == |Restore(entries, bucket, keep)|
    ensures forall p: nat :: p in at <==> p < |entries| && Tagged(entries[p], bucket, p) in keep
    ensures forall i :: 0 <= i < |at| ==> at[i] < |entries| && Restore(entries, bucket, keep)[i] == entries[at[i]]
  {
    if entries == [] {
      at := [];
    } else {
      var n := |entries| - 1;
      var before := RestoreIsSubsequence(entries[..n], bucket, keep);
      var last: seq<nat> := if Tagged(entries[n], bucket, n) in keep then [n] else [];
      at := before + last;
      forall i | 0 <= i < |before| ensures before[i] < n { assert before[i] in before; }
      forall p: nat ensures p in at <==> p < |entries| && Tagged(entries[p], bucket, p) in keep {
        assert p in at <==> p in before || p in last;
        if p < n { assert entries[..n][p] == entries[p]; }
      }
    }
  }

  /** Every place of a bucket is kept. */
  ghost predicate AllKept(entries: seq<MemoryEntry>, bucket: Bucket, keep: set<Tagged>) {
    forall p :: 0 <= p < |entries| ==> Tagged(entries[p], bucket, p) in keep
  }

  /** Nothing dropped means nothing changed: every bucket comes back as it was, and only then. */
  lemma KeptWholeIff(m: ContextMemories, keep: set<Tagged>)
    ensures RestoreAll(m, keep) == m <==> forall t :: t in TagAll(m) ==> t in keep
  {
    RestoredWholeIff(m.mentalModels, MentalModels, keep);
    RestoredWholeIff(m.decisions, Decisions, keep);
    RestoredWholeIff(m.lessons, Lessons, keep);
    TagsKeptIff(m, keep);
  }

  lemma TagsKeptIff(m: ContextMemories, keep: set<Tagged>)
    ensures (forall t :: t in TagAll(m) ==> t in keep) <==>
            && AllKept(m.mentalModels, MentalModels, keep) && AllKept(m.decisions, Decisions, keep)
            && AllKept(m.lessons, Lessons, keep)
  {
    TagKeptIff(m.mentalModels, MentalModels, keep);
    TagKeptIff(m.decisions, Decisions, keep);
    TagKeptIff(m.lessons, Lessons, keep);
    var a, b, c := Tag(m.mentalModels, MentalModels), Tag(m.decisions, Decisions), Tag(m.lessons, Lessons);
    assert forall t :: t in a + b + c <==> t in a || t in b || t in c;
  }

  lemma TagKeptIff(entries: seq<MemoryEntry>, bucket: Bucket, keep: set<Tagged>)
    ensures (forall t :: t in Tag(entries, bucket) ==> t in keep) <==> AllKept(entries, bucket, keep)
  {
    var tags := Tag(entries, bucket);
    assert forall p :: 0 <= p < |entries| ==> tags[p] in tags && tags[p] == Tagged(entries[p], bucket, p);
    if AllKept(entries, bucket, keep) {
      forall t | t in tags ensures t in keep {
        var p :| 0 <= p < |tags| && tags[p] == t;
      }
    }
  }

  lemma LastKept(front: seq<MemoryEntry>, entries: seq<MemoryEntry>)
    requires entries != []
    ensures front + [entries[|entries| - 1]] == entries <==> front == entries[..|entries| - 1]
  {
    if front + [entries[|entries| - 1]] == entries { assert entries[..|front|] == front; }
  }

  /** A bucket is whole when all its places are kept. */
  lemma {:induction false} RestoredWholeIff(entries: seq<MemoryEntry>, bucket: Bucket, keep: set<Tagged>)
    ensures |Restore(entries, bucket, keep)| <= |entries|
    ensures Restore(entries, bucket, keep) == entries <==> AllKept(entries, bucket, keep)
  {
    if entries == [] {
    } else {
      var n := |entries| - 1;
      RestoredWholeIff(entries[..n], bucket, keep);
      assert forall p :: 0 <= p < n ==> entries[..n][p] == entries[p];
      if Tagged(entries[n], bucket, n) in keep {
        LastKept(Restore(entries[..n], bucket, keep), entries);
      } else {
        assert |Restore(entries, bucket, keep)| <= n;
      }
    }
  }

  // ---- The budget in characters ----

  /** The contents of the results, one after the other. */
  function AllContent(results: seq<RecallResult>): string {
    if results == [] then "" else AllContent(results[..|results| - 1]) + results[|results| - 1].content
  }

  lemma {:induction false} TotalIsContent(results: seq<RecallResult>, n: nat)
    requires n <= |results|
    ensures Total(Lengths(results), n) == |AllContent(results[..n])|
  {
    if n == 0 {
    } else {
      TotalIsContent(results, n - 1);
      assert results[..n][..n - 1] == results[..n - 1];
    }
  }

  /**
   * What recall returns fits the budget unless it is a single result; and unless everything is returned,
   * the budget is reached or the next result would cross it.
   */
  lemma RecallFillsBudget(results: seq<RecallResult>, budget: int, n: nat)
    requires budget > 0 && IsRecallCut(Lengths(results), budget, n)
    ensures results != [] ==> n > 0
    ensures |AllContent(results[..n])| <= budget || n == 1
    ensures n < |results| ==> |AllContent(results[..n])| >= budget || |AllContent(results[..n + 1])| > budget
  {
    TotalIsContent(results, n);
    if n < |results| { TotalIsContent(results, n + 1); }
    if n > 1 { assert RecallKeeps(Lengths(results), budget, n - 1); }
  }

  /** A budget asked for counts, even zero; only without one the server's default does. */
  lemma ExplicitBudgetCounts(requested: int, serverDefault: int)
    ensures ResolveMaxChars(Some(requested), serverDefault) == requested
    ensures ResolveMaxChars(None, serverDefault) == serverDefault
  {
  }
}
