/**
 * Expanding the top results by the memories linked to them (src/qortia/links.py): one pass over
 * the link rows in order of similarity, proved equal to taking each source's first targets.
 */
module LinkExpansion {
  import opened Wrappers
  import opened Results
  import opened Collections

  const EXPAND_TOP_RESULTS := 5
  const EXPAND_LIMIT_PER_RESULT := 2

  /** A row of the link table. */
  datatype Link = Link(source: Id, target: Id, similarity: real)

  /** The targets of a source that are not among the results already, in row order. */
  function FreshTargets(rows: seq<Link>, existing: set<Id>, source: Id): seq<Id> {
    if rows == [] then []
    else
      var n := |rows| - 1;
      FreshTargets(rows[..n], existing, source)
      + if rows[n].source == source && rows[n].target !in existing then [rows[n].target] else []
  }

  function Take(s: seq<Id>, limit: nat): seq<Id> {
    if |s| <= limit then s else s[..limit]
  }

  /** The first `limit` fresh targets of a source. */
  function Bucket(rows: seq<Link>, existing: set<Id>, limit: nat, source: Id): seq<Id> {
    Take(FreshTargets(rows, existing, source), limit)
  }

  /** The sources with a fresh target, in the order in which the pass meets them. */
  function Sources(rows: seq<Link>, existing: set<Id>): seq<Id> {
    if rows == [] then []
    else
      var n := |rows| - 1;
      var before := Sources(rows[..n], existing);
      if rows[n].target in existing || rows[n].source in before then before else before + [rows[n].source]
  }

  /** The first of the listed sources that has `target` in its bucket. */
  function FirstSource(sources: seq<Id>, bucket: Id -> seq<Id>, target: Id): Option<Id> {
    if sources == [] then None
    else if target in bucket(sources[0]) then Some(sources[0])
    else FirstSource(sources[1..], bucket, target)
  }

  function Buckets(rows: seq<Link>, existing: set<Id>, limit: nat): Id -> seq<Id> {
    (source: Id) => Bucket(rows, existing, limit, source)
  }

  /** Every target in the bucket of some source. */
  ghost predicate Gathered(sources: seq<Id>, bucket: Id -> seq<Id>, target: Id) {
    exists s :: s in sources && target in bucket(s)
  }

  // ---- The pass ----

  /** The dictionary of buckets and its keys in insertion order. */
  ghost predicate Bucketed(rows: seq<Link>, existing: set<Id>, limit: nat, perSource: map<Id, seq<Id>>,
                           sources: seq<Id>) {
    && sources == Sources(rows, existing)
    && (forall s :: s in perSource <==> s in sources)
    && (forall s :: s in perSource ==> perSource[s] == Bucket(rows, existing, limit, s))
  }

  /** The list of new ids: the targets of all buckets, each once. */
  ghost predicate Collected(rows: seq<Link>, existing: set<Id>, limit: nat, newIds: seq<Id>) {
    && Distinct(newIds)
    && forall t :: t in newIds <==> Gathered(Sources(rows, existing), Buckets(rows, existing, limit), t)
  }

  lemma {:induction false} SourcesHaveTargets(rows: seq<Link>, existing: set<Id>, s: Id)
    ensures s in Sources(rows, existing) <==> FreshTargets(rows, existing, s) != []
    ensures s in Sources(rows, existing) ==> exists i :: 0 <= i < |rows| && rows[i].source == s
  {
    if rows == [] {
    } else {
      SourcesHaveTargets(rows[..|rows| - 1], existing, s);
    }
  }

  lemma {:induction false} SourcesAreDistinct(rows: seq<Link>, existing: set<Id>)
    ensures Distinct(Sources(rows, existing))
  {
    if rows == [] {
    } else {
      SourcesAreDistinct(rows[..|rows| - 1], existing);
    }
  }

  lemma FreshStep(rows: seq<Link>, i: nat, existing: set<Id>, s: Id)
    requires i < |rows|
    ensures FreshTargets(rows[..i + 1], existing, s) ==
            FreshTargets(rows[..i], existing, s)
            + if rows[i].source == s && rows[i].target !in existing then [rows[i].target] else []
  {
    assert rows[..i + 1][..i] == rows[..i];
  }

  lemma SourcesStep(rows: seq<Link>, i: nat, existing: set<Id>)
    requires i < |rows|
    ensures var before := Sources(rows[..i], existing);
            Sources(rows[..i + 1], existing) ==
            if rows[i].target in existing || rows[i].source in before then before else before + [rows[i].source]
  {
    assert rows[..i + 1][..i] == rows[..i];
  }

  /** A row whose target is present already, or whose source has a full bucket, changes no bucket. */
  lemma BucketStep(rows: seq<Link>, i: nat, existing: set<Id>, limit: nat, s: Id)
    requires i < |rows|
    ensures BucketGrows(rows, i, existing, limit, s)
  {
    FreshStep(rows, i, existing, s);
  }

  lemma GatheredStep(rows: seq<Link>, i: nat, existing: set<Id>, limit: nat, t: Id)
    requires i < |rows|
    ensures Gathered(Sources(rows[..i + 1], existing), Buckets(rows[..i + 1], existing, limit), t) <==>
            (Gathered(Sources(rows[..i], existing), Buckets(rows[..i], existing, limit), t)
             || (t == rows[i].target && t !in existing && |Bucket(rows[..i], existing, limit, rows[i].source)| < limit))
  {
    SourcesStep(rows, i, existing);
    BucketStep(rows, i, existing, limit, rows[i].source);
    var before, after := Sources(rows[..i], existing), Sources(rows[..i + 1], existing);
    if Gathered(before, Buckets(rows[..i], existing, limit), t) {
      var s :| s in before && t in Bucket(rows[..i], existing, limit, s);
      BucketStep(rows, i, existing, limit, s);
      assert s in after && t in Buckets(rows[..i + 1], existing, limit)(s);
    }
    if t == rows[i].target && t !in existing && |Bucket(rows[..i], existing, limit, rows[i].source)| < limit {
      assert rows[i].source in after && t in Buckets(rows[..i + 1], existing, limit)(rows[i].source);
    }
    if Gathered(after, Buckets(rows[..i + 1], existing, limit), t) {
      var s :| s in after && t in Bucket(rows[..i + 1], existing, limit, s);
      BucketStep(rows, i, existing, limit, s);
      SourcesHaveTargets(rows[..i], existing, s);
      if t in Bucket(rows[..i], existing, limit, s) {
        assert s in before && t in Buckets(rows[..i], existing, limit)(s);
      }
    }
  }

  method GroupLinks(rows: seq<Link>, existing: set<Id>, limit: nat)
    returns (perSource: map<Id, seq<Id>>, sources: seq<Id>, newIds: seq<Id>)
    ensures Bucketed(rows, existing, limit, perSource, sources) && Collected(rows, existing, limit, newIds)
  {
    perSource, sources, newIds := map[], [], [];
    for i := 0 to |rows|
      invariant Bucketed(rows[..i], existing, limit, perSource, sources)
      invariant Collected(rows[..i], existing, limit, newIds)
    {
      var added;
      perSource, sources, added := AddToBucket(rows, i, existing, limit, perSource, sources);
      CollectedStep(rows, i, existing, limit, newIds, added);
      if added && rows[i].target !in newIds {
        newIds := newIds + [rows[i].target];
      }
    }
    assert rows[..|rows|] == rows;
  }

  /** Puts the target of row `i` into its source's bucket, unless it is present already or the bucket is full. */
  method AddToBucket(rows: seq<Link>, i: nat, existing: set<Id>, limit: nat, perSource: map<Id, seq<Id>>,
                     sources: seq<Id>)
    returns (perSource': map<Id, seq<Id>>, sources': seq<Id>, added: bool)
    requires i < |rows| && Bucketed(rows[..i], existing, limit, perSource, sources)
    ensures Bucketed(rows[..i + 1], existing, limit, perSource', sources')
    ensures added <==> rows[i].target !in existing && |Bucket(rows[..i], existing, limit, rows[i].source)| < limit
  {
    var src, tgt := rows[i].source, rows[i].target;
    if tgt in existing {
      KnownTargetStep(rows, i, existing, limit, perSource, sources);
      return perSource, sources, false;
    }
    SourcesHaveTargets(rows[..i], existing, src);
    var bucket := if src in perSource then perSource[src] else [];
    FreshTargetStep(rows, i, existing, limit, perSource, sources, bucket);
    sources' := if src in perSource then sources else sources + [src];
    added := |bucket| < limit;
    perSource' := perSource[src := if added then bucket + [tgt] else bucket];
  }

  /** A row whose target is present already changes nothing. */
  lemma KnownTargetStep(rows: seq<Link>, i: nat, existing: set<Id>, limit: nat, perSource: map<Id, seq<Id>>,
                        sources: seq<Id>)
    requires i < |rows| && Bucketed(rows[..i], existing, limit, perSource, sources)
    requires rows[i].target in existing
    ensures Bucketed(rows[..i + 1], existing, limit, perSource, sources)
  {
    SourcesStep(rows, i, existing);
    forall s | s in perSource ensures perSource[s] == Bucket(rows[..i + 1], existing, limit, s) {
      BucketStep(rows, i, existing, limit, s);
    }
  }

  /** A row with a fresh target opens or extends the bucket of its source. */
  lemma FreshTargetStep(rows: seq<Link>, i: nat, existing: set<Id>, limit: nat, perSource: map<Id, seq<Id>>,
                        sources: seq<Id>, bucket: seq<Id>)
    requires i < |rows| && Bucketed(rows[..i], existing, limit, perSource, sources)
    requires rows[i].target !in existing && bucket == Bucket(rows[..i], existing, limit, rows[i].source)
    ensures var src := rows[i].source;
            Bucketed(rows[..i + 1], existing, limit,
                     perSource[src := if |bucket| < limit then bucket + [rows[i].target] else bucket],
                     if src in perSource then sources else sources + [src])
  {
    SourcesStep(rows, i, existing);
    var src := rows[i].source;
    var perSource' := perSource[src := if |bucket| < limit then bucket + [rows[i].target] else bucket];
    forall s | s in perSource' ensures perSource'[s] == Bucket(rows[..i + 1], existing, limit, s) {
      BucketStep(rows, i, existing, limit, s);
    }
  }

  ghost predicate BucketGrows(rows: seq<Link>, i: nat, existing: set<Id>, limit: nat, s: Id)
    requires i < |rows|
  {
    var before := Bucket(rows[..i], existing, limit, s);
    Bucket(rows[..i + 1], existing, limit, s) ==
    if rows[i].source == s && rows[i].target !in existing && |before| < limit then before + [rows[i].target] else before
  }

  lemma CollectedStep(rows: seq<Link>, i: nat, existing: set<Id>, limit: nat, newIds: seq<Id>, added: bool)
    requires i < |rows| && Collected(rows[..i], existing, limit, newIds)
    requires added <==> rows[i].target !in existing && |Bucket(rows[..i], existing, limit, rows[i].source)| < limit
    ensures Collected(rows[..i + 1], existing, limit,
                      newIds + if added && rows[i].target !in newIds then [rows[i].target] else [])
  {
    var newIds' := newIds + if added && rows[i].target !in newIds then [rows[i].target] else [];
    forall t
      ensures t in newIds' <==>
              Gathered(Sources(rows[..i + 1], existing), Buckets(rows[..i + 1], existing, limit), t)
    {
      GatheredStep(rows, i, existing, limit, t);
    }
  }

  // ---- At most ten ----

  function Union(sources: seq<Id>, bucket: Id -> seq<Id>): set<Id> {
    if sources == [] then {} else ToSet(bucket(sources[0])) + Union(sources[1..], bucket)
  }

  lemma {:induction false} UnionIsGathered(sources: seq<Id>, bucket: Id -> seq<Id>, t: Id)
    ensures t in Union(sources, bucket) <==> Gathered(sources, bucket, t)
  {
    if sources == [] {
    } else {
      UnionIsGathered(sources[1..], bucket, t);
      if Gathered(sources, bucket, t) {
        var s :| s in sources && t in bucket(s);
        if s != sources[0] { assert s in sources[1..] && t in bucket(s); }
      }
      if Gathered(sources[1..], bucket, t) {
        var s :| s in sources[1..] && t in bucket(s);
        assert s in sources;
      }
      assert sources[0] in sources;
    }
  }

  lemma Distributes(limit: nat, n: nat)
    ensures limit * (n + 1) == limit * n + limit
  {
  }

  lemma {:induction false} UnionCount(sources: seq<Id>, bucket: Id -> seq<Id>, limit: nat)
    requires forall s :: |bucket(s)| <= limit
    ensures |Union(sources, bucket)| <= limit * |sources|
  {
    if sources == [] {
    } else {
      UnionCount(sources[1..], bucket, limit);
      ToSetCount(bucket(sources[0]));
      UnionAdds(ToSet(bucket(sources[0])), Union(sources[1..], bucket));
      Distributes(limit, |sources[1..]|);
    }
  }

  /** No more gathered targets than the limit for each source. */
  lemma SourcesCount(rows: seq<Link>, existing: set<Id>, limit: nat, sourceIds: seq<Id>)
    requires forall i :: 0 <= i < |rows| ==> rows[i].source in sourceIds
    ensures |Union(Sources(rows, existing), Buckets(rows, existing, limit))| <= limit * |sourceIds|
  {
    var sources := Sources(rows, existing);
    UnionCount(sources, Buckets(rows, existing, limit), limit);
    SourcesAreDistinct(rows, existing);
    forall s | s in sources ensures s in sourceIds { SourcesHaveTargets(rows, existing, s); }
    ToSetCount(sources);
    ToSetCount(sourceIds);
    SubsetCount(ToSet(sources), ToSet(sourceIds));
    MultiplyOrder(|sources|, |sourceIds|, limit);
  }

  lemma MultiplyOrder(x: nat, y: nat, c: nat)
    requires x <= y
    ensures c * x <= c * y
  {
  }

  // ---- The expansion ----

  /** The link query: every link row of the given sources, once, the most similar first. */
  ghost predicate AnswersLinks(links: set<Link>, sourceIds: seq<Id>, rows: seq<Link>) {
    && Distinct(rows)
    && (forall l :: l in rows <==> l in links && l.source in sourceIds)
    && forall i, j :: 0 <= i < j < |rows| ==> rows[i].similarity >= rows[j].similarity
  }

  /** The table holds a pair of ids at most once. */
  ghost predicate OnePerPair(links: set<Link>) {
    forall l, m :: l in links && m in links && l.source == m.source && l.target == m.target ==> l == m
  }

  predicate Linked(links: set<Link>, source: Id, target: Id) {
    exists l :: l in links && l.source == source && l.target == target
  }

  /** The memory query: the rows of the given ids that are live, in any order. */
  ghost predicate AnswersMemories(live: Id -> bool, ids: set<Id>, rows: seq<RecallResult>) {
    && Distinct(Ids(rows))
    && (forall r :: r in rows ==> r.scope == Private && r.linkedVia == None)
    && forall id :: id in Ids(rows) <==> id in ids && live(id)
  }

  function TopSources(results: seq<RecallResult>): seq<Id> {
    Ids(if |results| <= EXPAND_TOP_RESULTS then results else results[..EXPAND_TOP_RESULTS])
  }

  /** What the expansion appends, stated without the pass. */
  ghost predicate IsExpansion(results: seq<RecallResult>, rows: seq<Link>, limit: nat, live: Id -> bool,
                              linked: seq<RecallResult>) {
    var existing := ToSet(Ids(results));
    var sources, bucket := Sources(rows, existing), Buckets(rows, existing, limit);
    && Distinct(Ids(linked))
    && (forall id :: id in Ids(linked) <==> Gathered(sources, bucket, id) && live(id))
    && (forall r :: r in linked ==> r.scope == Private && r.linkedVia == FirstSource(sources, bucket, r.id))
  }

  lemma {:induction false} FirstSourceFinds(sources: seq<Id>, bucket: Id -> seq<Id>, t: Id)
    ensures Gathered(sources, bucket, t) <==> FirstSource(sources, bucket, t).Some?
    ensures FirstSource(sources, bucket, t).Some? ==>
      FirstSource(sources, bucket, t).value in sources && t in bucket(FirstSource(sources, bucket, t).value)
  {
    if sources == [] {
    } else {
      FirstSourceFinds(sources[1..], bucket, t);
      if Gathered(sources, bucket, t) && t !in bucket(sources[0]) {
        var s :| s in sources && t in bucket(s);
        assert s in sources[1..];
      }
    }
  }

  lemma {:induction false} FreshTargetsAreLinked(rows: seq<Link>, existing: set<Id>, s: Id, t: Id)
    requires t in FreshTargets(rows, existing, s)
    ensures t !in existing && exists i :: 0 <= i < |rows| && rows[i].source == s && rows[i].target == t
  {
    var n := |rows| - 1;
    if t in FreshTargets(rows[..n], existing, s) {
      FreshTargetsAreLinked(rows[..n], existing, s, t);
      var i :| 0 <= i < n && rows[..n][i].source == s && rows[..n][i].target == t;
      assert rows[i] == rows[..n][i];
    }
  }

  // ---- The most similar ones are kept ----

  /** Where a fresh row's target stands among the fresh targets of its source. */
  lemma {:induction false} FreshAt(rows: seq<Link>, existing: set<Id>, i: nat)
    requires i < |rows| && rows[i].target !in existing
    ensures var place := |FreshTargets(rows[..i], existing, rows[i].source)|;
            && place < |FreshTargets(rows, existing, rows[i].source)|
            && FreshTargets(rows, existing, rows[i].source)[place] == rows[i].target
  {
    var n := |rows| - 1;
    if i == n {
    } else {
      FreshAt(rows[..n], existing, i);
      assert rows[..n][..i] == rows[..i];
    }
  }

  lemma {:induction false} FreshAreDistinct(rows: seq<Link>, existing: set<Id>, s: Id)
    requires forall i, j :: 0 <= i < j < |rows| ==> rows[i].source != rows[j].source || rows[i].target != rows[j].target
    ensures Distinct(FreshTargets(rows, existing, s))
  {
    if rows == [] {
    } else {
      var n := |rows| - 1;
      FreshAreDistinct(rows[..n], existing, s);
      if rows[n].source == s && rows[n].target in FreshTargets(rows[..n], existing, s) {
        FreshTargetsAreLinked(rows[..n], existing, s, rows[n].target);
      }
    }
  }

  /** A fresh target is kept exactly when fewer than `limit` fresh ones of its source come before it. */
  lemma KeptIff(rows: seq<Link>, existing: set<Id>, limit: nat, i: nat)
    requires forall i, j :: 0 <= i < j < |rows| ==> rows[i].source != rows[j].source || rows[i].target != rows[j].target
    requires i < |rows| && rows[i].target !in existing
    ensures rows[i].target in Bucket(rows, existing, limit, rows[i].source) <==>
            |FreshTargets(rows[..i], existing, rows[i].source)| < limit
  {
    FreshAt(rows, existing, i);
    FreshAreDistinct(rows, existing, rows[i].source);
    var place := |FreshTargets(rows[..i], existing, rows[i].source)|;
    if place < limit { assert Bucket(rows, existing, limit, rows[i].source)[place] == rows[i].target; }
  }

  lemma {:induction false} FreshGrows(rows: seq<Link>, existing: set<Id>, s: Id, i: nat, j: nat)
    requires i <= j <= |rows|
    ensures |FreshTargets(rows[..i], existing, s)| <= |FreshTargets(rows[..j], existing, s)|
  {
    if i == j {
    } else {
      FreshGrows(rows, existing, s, i, j - 1);
      assert rows[..j][..j - 1] == rows[..j - 1];
    }
  }

  /** Every target kept for a source is at least as similar as any new target of that source left out. */
  lemma KeptAreMostSimilar(links: set<Link>, sourceIds: seq<Id>, rows: seq<Link>, existing: set<Id>, limit: nat,
                           kept: Link, dropped: Link)
    requires OnePerPair(links) && AnswersLinks(links, sourceIds, rows)
    requires kept in links && dropped in links && kept.source == dropped.source && kept.source in sourceIds
    requires kept.target in Bucket(rows, existing, limit, kept.source)
    requires dropped.target !in existing && dropped.target !in Bucket(rows, existing, limit, kept.source)
    ensures kept.similarity >= dropped.similarity
  {
    var i :| 0 <= i < |rows| && rows[i] == kept;
    var j :| 0 <= j < |rows| && rows[j] == dropped;
    assert kept.target in FreshTargets(rows, existing, kept.source);
    FreshTargetsAreLinked(rows, existing, kept.source, kept.target);
    KeptIff(rows, existing, limit, i);
    KeptIff(rows, existing, limit, j);
    if j < i { FreshGrows(rows, existing, kept.source, j, i); }
  }

  /**
   * Each appended result is new, and names one of the top results that really links to it; there
   * are at most ten of them.
   */
  lemma ExpansionIsLinked(results: seq<RecallResult>, links: set<Link>, rows: seq<Link>, live: Id -> bool,
                          linked: seq<RecallResult>)
    requires AnswersLinks(links, TopSources(results), rows)
    requires IsExpansion(results, rows, EXPAND_LIMIT_PER_RESULT, live, linked)
    ensures |linked| <= 10 && |TopSources(results)| <= 5 && TopSources(results) <= Ids(results)
    ensures forall r :: r in linked ==>
      && r.id !in Ids(results) && live(r.id) && r.linkedVia.Some?
      && r.linkedVia.value in TopSources(results) && Linked(links, r.linkedVia.value, r.id)
  {
    var existing := ToSet(Ids(results));
    var sources, bucket := Sources(rows, existing), Buckets(rows, existing, EXPAND_LIMIT_PER_RESULT);
    LinkedCount(results, rows, EXPAND_LIMIT_PER_RESULT, live, linked, TopSources(results));
    forall r | r in linked
      ensures r.id !in Ids(results) && live(r.id) && r.linkedVia.Some?
        && r.linkedVia.value in TopSources(results) && Linked(links, r.linkedVia.value, r.id)
    {
      var i :| 0 <= i < |linked| && linked[i] == r;
      assert Ids(linked)[i] == r.id;
      FirstSourceFinds(sources, bucket, r.id);
      FreshTargetsAreLinked(rows, existing, r.linkedVia.value, r.id);
    }
  }

  lemma LinkedCount(results: seq<RecallResult>, rows: seq<Link>, limit: nat, live: Id -> bool,
                    linked: seq<RecallResult>, sourceIds: seq<Id>)
    requires IsExpansion(results, rows, limit, live, linked)
    requires forall i :: 0 <= i < |rows| ==> rows[i].source in sourceIds
    ensures |linked| <= limit * |sourceIds|
  {
    var existing := ToSet(Ids(results));
    var sources, bucket := Sources(rows, existing), Buckets(rows, existing, limit);
    forall t | t in ToSet(Ids(linked)) ensures t in Union(sources, bucket) { UnionIsGathered(sources, bucket, t); }
    ToSetCount(Ids(linked));
    SubsetCount(ToSet(Ids(linked)), Union(sources, bucket));
    SourcesCount(rows, existing, limit, sourceIds);
  }

  /** target_to_source: each gathered target with the first source that has it; the first match wins. */
  method ReverseMap(sources: seq<Id>, perSource: map<Id, seq<Id>>, ghost bucket: Id -> seq<Id>)
    returns (targetToSource: map<Id, Id>)
    requires forall s :: s in sources ==> s in perSource && perSource[s] == bucket(s)
    ensures forall t :: FirstSource(sources, bucket, t) ==
                        if t in targetToSource then Some(targetToSource[t]) else None
  {
    targetToSource := map[];
    for i := 0 to |sources|
      invariant forall t :: FirstSource(sources[..i], bucket, t) ==
                            if t in targetToSource then Some(targetToSource[t]) else None
    {
      ghost var before := targetToSource;
      targetToSource := ClaimTargets(sources[i], perSource[sources[i]], targetToSource);
      forall t ensures FirstSource(sources[..i + 1], bucket, t) ==
                       if t in targetToSource then Some(targetToSource[t]) else None
      {
        FirstSourceStep(sources, i, bucket, t);
      }
    }
    assert sources[..|sources|] == sources;
  }

  /** setdefault for each target of one source. */
  method ClaimTargets(source: Id, targets: seq<Id>, before: map<Id, Id>) returns (after: map<Id, Id>)
    ensures forall t :: t in after <==> t in before || t in targets
    ensures forall t :: t in after ==> after[t] == if t in before then before[t] else source
  {
    after := before;
    for j := 0 to |targets|
      invariant forall t :: t in after <==> t in before || t in targets[..j]
      invariant forall t :: t in after ==> after[t] == if t in before then before[t] else source
    {
      assert targets[..j + 1] == targets[..j] + [targets[j]];
      if targets[j] !in after { after := after[targets[j] := source]; }
    }
    assert targets[..|targets|] == targets;
  }

  lemma {:induction false} FirstSourceConcat(a: seq<Id>, b: seq<Id>, bucket: Id -> seq<Id>, t: Id)
    ensures FirstSource(a + b, bucket, t) ==
            if FirstSource(a, bucket, t).Some? then FirstSource(a, bucket, t) else FirstSource(b, bucket, t)
  {
    if a == [] {
      assert a + b == b;
    } else {
      assert (a + b)[1..] == a[1..] + b;
      FirstSourceConcat(a[1..], b, bucket, t);
    }
  }

  lemma FirstSourceStep(sources: seq<Id>, i: nat, bucket: Id -> seq<Id>, t: Id)
    requires i < |sources|
    ensures FirstSource(sources[..i + 1], bucket, t) ==
            if FirstSource(sources[..i], bucket, t).Some? then FirstSource(sources[..i], bucket, t)
            else if t in bucket(sources[i]) then Some(sources[i]) else None
  {
    assert sources[..i + 1] == sources[..i] + [sources[i]];
    FirstSourceConcat(sources[..i], [sources[i]], bucket, t);
    assert [sources[i]][1..] == [];
  }

  /** The fetched memories that are new, each naming its source. */
  method NameSources(rows: seq<RecallResult>, existing: set<Id>, targetToSource: map<Id, Id>)
    returns (linked: seq<RecallResult>)
    requires forall r :: r in rows ==> r.id !in existing
    ensures Ids(linked) == Ids(rows)
    ensures forall i :: 0 <= i < |linked| ==>
      linked[i] == rows[i].(linkedVia :=
        if rows[i].id in targetToSource then Some(targetToSource[rows[i].id]) else None)
  {
    linked := [];
    for i := 0 to |rows|
      invariant |linked| == i
      invariant forall j :: 0 <= j < i ==>
        linked[j] == rows[j].(linkedVia :=
          if rows[j].id in targetToSource then Some(targetToSource[rows[j].id]) else None)
    {
      var rid := rows[i].id;
      assert rows[i] in rows;
      linked := linked + [rows[i].(linkedVia := if rid in targetToSource then Some(targetToSource[rid]) else None)];
    }
  }

  /**
   * The expansion. `linkRows` is what the link query returned and `fetch` the memory query; None
   * stands for a failed query, on which the results are returned unchanged.
   */
  method ExpandWithLinks(results: seq<RecallResult>, linkRows: Option<seq<Link>>,
                         fetch: seq<Id> -> Option<seq<RecallResult>>, ghost live: Id -> bool)
    returns (expanded: seq<RecallResult>)
    requires forall ids :: fetch(ids).Some? ==> AnswersMemories(live, ToSet(ids), fetch(ids).value)
    ensures results <= expanded
    ensures expanded == results ||
            (linkRows.Some?
             && IsExpansion(results, linkRows.value, EXPAND_LIMIT_PER_RESULT, live, expanded[|results|..]))
    ensures forall r :: r in expanded[|results|..] ==>
              exists ids :: fetch(ids).Some? && r.(linkedVia := None) in fetch(ids).value
    ensures results != [] && linkRows.Some? && (forall ids :: fetch(ids).Some?) ==>
            IsExpansion(results, linkRows.value, EXPAND_LIMIT_PER_RESULT, live, expanded[|results|..])
  {
    expanded := results;
    if results == [] || linkRows == None { return; }
    var rows := linkRows.value;
    var existing := ToSet(Ids(results));
    var perSource, sources, newIds := GroupLinks(rows, existing, EXPAND_LIMIT_PER_RESULT);
    if newIds == [] {
      NothingGathered(results, rows, EXPAND_LIMIT_PER_RESULT, live);
      return;
    }
    var fetched := fetch(newIds);
    if fetched == None { return; }
    var targetToSource := ReverseMap(sources, perSource, Buckets(rows, existing, EXPAND_LIMIT_PER_RESULT));
    FetchedAreNew(rows, existing, EXPAND_LIMIT_PER_RESULT, newIds, fetched.value, live);
    var linked := NameSources(fetched.value, existing, targetToSource);
    expanded := results + linked;
    assert expanded[|results|..] == linked;
    MakesExpansion(results, rows, EXPAND_LIMIT_PER_RESULT, newIds, fetched.value, live, linked, targetToSource);
    forall r | r in linked ensures r.(linkedVia := None) in fetch(newIds).value {
      var i :| 0 <= i < |linked| && linked[i] == r;
      assert |linked| == |Ids(linked)| == |Ids(fetched.value)| == |fetched.value|;
      assert fetched.value[i] in fetched.value;
    }
  }

  lemma NothingGathered(results: seq<RecallResult>, rows: seq<Link>, limit: nat, live: Id -> bool)
    requires Collected(rows, ToSet(Ids(results)), limit, [])
    ensures IsExpansion(results, rows, limit, live, [])
  {
    assert Ids([]) == [];
  }

  lemma FetchedAreNew(rows: seq<Link>, existing: set<Id>, limit: nat, newIds: seq<Id>, fetched: seq<RecallResult>,
                      live: Id -> bool)
    requires Collected(rows, existing, limit, newIds) && AnswersMemories(live, ToSet(newIds), fetched)
    ensures forall r :: r in fetched ==> r.id !in existing
  {
    forall r | r in fetched ensures r.id !in existing {
      var i :| 0 <= i < |fetched| && fetched[i] == r;
      assert Ids(fetched)[i] == r.id;
      assert r.id in ToSet(newIds);
      assert r.id in newIds;
      assert Gathered(Sources(rows, existing), Buckets(rows, existing, limit), r.id);
      var s :| s in Sources(rows, existing) && r.id in Bucket(rows, existing, limit, s);
      FreshTargetsAreLinked(rows, existing, s, r.id);
    }
  }

  lemma MakesExpansion(results: seq<RecallResult>, rows: seq<Link>, limit: nat, newIds: seq<Id>,
                       fetched: seq<RecallResult>, live: Id -> bool, linked: seq<RecallResult>,
                       targetToSource: map<Id, Id>)
    requires Collected(rows, ToSet(Ids(results)), limit, newIds) && AnswersMemories(live, ToSet(newIds), fetched)
    requires Ids(linked) == Ids(fetched)
    requires forall i :: 0 <= i < |linked| ==>
      linked[i] == fetched[i].(linkedVia :=
        if fetched[i].id in targetToSource then Some(targetToSource[fetched[i].id]) else None)
    requires var existing := ToSet(Ids(results));
      forall t :: FirstSource(Sources(rows, existing), Buckets(rows, existing, limit), t) ==
                  if t in targetToSource then Some(targetToSource[t]) else None
    ensures IsExpansion(results, rows, limit, live, linked)
  {
    forall r | r in linked
      ensures var existing := ToSet(Ids(results));
        r.scope == Private && r.linkedVia == FirstSource(Sources(rows, existing), Buckets(rows, existing, limit), r.id)
    {
      var i :| 0 <= i < |linked| && linked[i] == r;
      assert |linked| == |Ids(linked)| == |Ids(fetched)| == |fetched|;
      assert fetched[i] in fetched;
    }
  }

  // ---- Which source comes first ----

  /** A row with a fresh target whose source no earlier such row has. */
  predicate OpensBucket(rows: seq<Link>, existing: set<Id>, p: nat)
    requires p < |rows|
  {
    && rows[p].target !in existing
    && forall q :: 0 <= q < p && rows[q].target !in existing ==> rows[q].source != rows[p].source
  }

  /** The sources stand in the order of their first rows, so that of the most similar new target comes first. */
  lemma {:induction false} SourcesInOrder(rows: seq<Link>, existing: set<Id>) returns (at: seq<nat>)
    ensures Increasing(at) && |at| == |Sources(rows, existing)|
    ensures forall k :: 0 <= k < |at| ==> at[k] < |rows| && Sources(rows, existing)[k] == rows[at[k]].source
    ensures forall p: nat :: p in at <==> p < |rows| && OpensBucket(rows, existing, p)
  {
    if rows == [] {
      at := [];
    } else {
      var n := |rows| - 1;
      var before := SourcesInOrder(rows[..n], existing);
      if rows[n].target in existing || rows[n].source in Sources(rows[..n], existing) {
        at := before;
      } else {
        at := AppendPlace(before, n);
      }
      forall p: nat ensures p in at <==> p < |rows| && OpensBucket(rows, existing, p) {
        OpensStep(rows, existing, before, p);
      }
    }
  }

  lemma OpensStep(rows: seq<Link>, existing: set<Id>, before: seq<nat>, p: nat)
    requires rows != []
    requires var n := |rows| - 1; forall p: nat :: p in before <==> p < n && OpensBucket(rows[..n], existing, p)
    ensures var n := |rows| - 1;
            p < |rows| && OpensBucket(rows, existing, p) <==>
            || p in before
            || (p == n && rows[n].target !in existing && rows[n].source !in Sources(rows[..n], existing))
  {
    var n := |rows| - 1;
    if p < n {
      assert forall q :: 0 <= q <= p ==> rows[..n][q] == rows[q];
    } else if p == n {
      SourcesAreOpened(rows[..n], existing, rows[n].source);
      assert forall q :: 0 <= q < n ==> rows[..n][q] == rows[q];
    }
  }

  lemma {:induction false} SourcesAreOpened(rows: seq<Link>, existing: set<Id>, s: Id)
    ensures s in Sources(rows, existing) <==>
            exists q :: 0 <= q < |rows| && rows[q].target !in existing && rows[q].source == s
  {
    if rows == [] {
    } else {
      var n := |rows| - 1;
      SourcesAreOpened(rows[..n], existing, s);
      assert forall q :: 0 <= q < n ==> rows[..n][q] == rows[q];
    }
  }
}
