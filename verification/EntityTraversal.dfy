/**
 * The bounded breadth-first walk over the entity table that recall uses to find
 * memories related to the entities of a query (src/qortia/recall_rerank.py).
 *
 * The walk is proved against two independent references: the ball of radius d
 * around the seeds, and explicit walks through co-occurring entities.
 */
module EntityTraversal {
  import opened Wrappers
  import opened Arithmetic
  import opened Collections

  type EntityId = nat
  type MemoryId = nat

  /** `similarity` is one minus the cosine distance to the query; None when the entity has no embedding. */
  datatype Entity = Entity(tenant: nat, linked: seq<MemoryId>, similarity: Option<real>)

  type Table = map<EntityId, Entity>

  /** A joined pair of the neighbour query: entity `id`, reached through the visited entity `via`. */
  datatype Row = Row(via: EntityId, id: EntityId)

  const MIN_SIMILARITY := 0.3
  const FETCH_LIMIT := 10

  /** `b` may be reached from `a`: same tenant, a shared memory, and `b` close enough to the query. */
  ghost predicate Hop(t: Table, tenant: nat, a: EntityId, b: EntityId) {
    && a in t && b in t && t[a].tenant == tenant && t[b].tenant == tenant
    && (exists m :: m in t[a].linked && m in t[b].linked)
    && Close(t, b)
  }

  predicate Close(t: Table, e: EntityId) {
    e in t && t[e].similarity.Some? && t[e].similarity.value >= MIN_SIMILARITY
  }

  /**
   * The rows the neighbour query may return: joined pairs, no pair twice, at most
   * ten, and all of them when the limit does not cut. Which ten the database keeps,
   * and in which order, is left open.
   */
  ghost predicate Answers(t: Table, tenant: nat, visited: set<EntityId>, rows: seq<Row>) {
    && |rows| <= FETCH_LIMIT
    && (forall i, j :: 0 <= i < j < |rows| ==> rows[i] != rows[j])
    && (forall r :: r in rows ==> r.via in visited && r.id !in visited && Hop(t, tenant, r.via, r.id))
    && (|rows| < FETCH_LIMIT ==>
          forall a, b :: a in visited && b !in visited && Hop(t, tenant, a, b) ==> Row(a, b) in rows)
  }

  /** `fetch` answers the neighbour query for every set of visited entities. */
  ghost predicate IsNeighbourQuery(t: Table, tenant: nat, fetch: set<EntityId> -> seq<Row>) {
    forall v: set<EntityId> :: Answers(t, tenant, v, fetch(v))
  }

  // ---- References ----

  function RowIds(rows: seq<Row>): set<EntityId> {
    set r | r in rows :: r.id
  }

  /** The entities within `d` hops of the seeds. */
  ghost function Ball(t: Table, tenant: nat, seeds: set<EntityId>, d: nat): set<EntityId> {
    if d == 0 then seeds
    else
      var inner := Ball(t, tenant, seeds, d - 1);
      inner + (set e | e in t && exists a :: a in inner && Hop(t, tenant, a, e))
  }

  /** The balls around the seeds as a function of the radius. */
  ghost function Balls(t: Table, tenant: nat, seeds: set<EntityId>): nat -> set<EntityId> {
    (d: nat) => Ball(t, tenant, seeds, d)
  }

  ghost predicate Walk(t: Table, tenant: nat, seeds: set<EntityId>, p: seq<EntityId>) {
    && |p| > 0 && p[0] in seeds
    && forall i :: 0 < i < |p| ==> Hop(t, tenant, p[i - 1], p[i])
  }

  /** `e` is first reached after exactly `d` hops. */
  ghost predicate AtDistance(ball: nat -> set<EntityId>, e: EntityId, d: nat) {
    d > 0 && e in ball(d) && e !in ball(d - 1)
  }

  /** The part of an entity's boost that does not depend on its distance; widely linked entities count less. */
  function BaseBoost(e: Entity): real {
    var n := (|e.linked| - 1) as real;
    var sim := if e.similarity.Some? then e.similarity.value else 0.0;
    assert n * n >= 0.0;
    sim * 0.5 / (1.0 + 0.001 * (n * n))
  }

  function BaseBoosts(t: Table): EntityId -> real {
    (e: EntityId) => if e in t then BaseBoost(t[e]) else 0.0
  }

  /** The boost that an entity at distance `d` gives to each memory it is linked to. */
  function Booster(base: EntityId -> real, decay: real): (EntityId, nat) -> real {
    (e: EntityId, d: nat) => base(e) * Power(decay, d)
  }

  /** Each memory of a discovered entity carries the largest boost any such entity gives it, floored at zero. */
  ghost predicate Summarises(t: Table, boost: (EntityId, nat) -> real, boosts: map<MemoryId, real>,
                             found: map<EntityId, nat>) {
    && found.Keys <= t.Keys
    && (forall m, e :: e in found && m in t[e].linked ==> m in boosts && boost(e, found[e]) <= boosts[m])
    && (forall m :: m in boosts ==> boosts[m] >= 0.0 && Attained(t, boost, found, m, boosts[m]))
  }

  /** Some discovered entity is linked to `m`, and gives it the boost `x` unless `x` is zero. */
  ghost predicate Attained(t: Table, boost: (EntityId, nat) -> real, found: map<EntityId, nat>, m: MemoryId, x: real) {
    exists e :: e in found && e in t && m in t[e].linked && (x == 0.0 || x == boost(e, found[e]))
  }

  /** The discovered entities are those within `d` hops that are no seeds, each at the distance recorded for it. */
  ghost predicate Exact(ball: nat -> set<EntityId>, found: map<EntityId, nat>, d: nat) {
    && found.Keys == ball(d) - ball(0)
    && forall e :: e in found ==> found[e] <= d && AtDistance(ball, e, found[e])
  }

  /** Sound even when the limit cuts: an entity discovered in round r is within r hops. */
  ghost predicate Inside(t: Table, ball: nat -> set<EntityId>, found: map<EntityId, nat>, d: nat) {
    forall e :: e in found ==> 1 <= found[e] <= d && Close(t, e) && e in ball(found[e]) && e !in ball(0)
  }

  /** None of the first `d` rounds hits the row limit. */
  ghost predicate Untruncated(ball: nat -> set<EntityId>, fetch: set<EntityId> -> seq<Row>, d: nat) {
    forall i: nat :: i < d ==> |fetch(ball(i))| < FETCH_LIMIT
  }

  /** `e` is first reached after exactly `r` hops, at most `d`. */
  ghost predicate Reached(t: Table, ball: nat -> set<EntityId>, d: nat, e: EntityId, r: nat) {
    e in t && r <= d && AtDistance(ball, e, r)
  }

  /** Memories of the entities reached carry the largest boost any of these gives them, floored at zero; others none. */
  ghost predicate IsBoostTable(t: Table, ball: nat -> set<EntityId>, boost: (EntityId, nat) -> real, d: nat,
                               boosts: map<MemoryId, real>) {
    && (forall e, r, m :: Reached(t, ball, d, e, r) && m in t[e].linked ==> m in boosts && boost(e, r) <= boosts[m])
    && (forall m :: m in boosts ==> boosts[m] >= 0.0 && Given(t, ball, boost, d, m, boosts[m]))
  }

  ghost predicate Given(t: Table, ball: nat -> set<EntityId>, boost: (EntityId, nat) -> real, d: nat, m: MemoryId,
                        x: real) {
    exists e, r :: Reached(t, ball, d, e, r) && m in t[e].linked && (x == 0.0 || x == boost(e, r))
  }

  // ---- Facts about the references ----

  lemma {:induction false} BallGrows(t: Table, tenant: nat, seeds: set<EntityId>, c: nat, d: nat)
    requires c <= d
    ensures Ball(t, tenant, seeds, c) <= Ball(t, tenant, seeds, d)
  {
    if c == d {
    } else {
      BallGrows(t, tenant, seeds, c, d - 1);
    }
  }

  lemma BallsGrow(t: Table, tenant: nat, seeds: set<EntityId>)
    ensures forall c, d :: 0 <= c <= d ==> Balls(t, tenant, seeds)(c) <= Balls(t, tenant, seeds)(d)
  {
    forall c, d | 0 <= c <= d ensures Balls(t, tenant, seeds)(c) <= Balls(t, tenant, seeds)(d) {
      BallGrows(t, tenant, seeds, c, d);
    }
  }

  /** The ball of radius d is what walks of at most d hops reach. */
  lemma {:induction false} BallIsWalks(t: Table, tenant: nat, seeds: set<EntityId>, d: nat, e: EntityId)
    ensures e in Ball(t, tenant, seeds, d) <==>
            exists p :: Walk(t, tenant, seeds, p) && |p| <= d + 1 && p[|p| - 1] == e
  {
    if e in Ball(t, tenant, seeds, d) {
      var p := WalkTo(t, tenant, seeds, d, e);
    }
    forall p | Walk(t, tenant, seeds, p) && |p| <= d + 1 && p[|p| - 1] == e
      ensures e in Ball(t, tenant, seeds, d)
    {
      WalkStaysInBall(t, tenant, seeds, p);
      BallGrows(t, tenant, seeds, |p| - 1, d);
    }
  }

  lemma {:induction false} WalkTo(t: Table, tenant: nat, seeds: set<EntityId>, d: nat, e: EntityId)
    returns (p: seq<EntityId>)
    requires e in Ball(t, tenant, seeds, d)
    ensures Walk(t, tenant, seeds, p) && |p| <= d + 1 && p[|p| - 1] == e
  {
    if d == 0 {
      p := [e];
    } else if e in Ball(t, tenant, seeds, d - 1) {
      p := WalkTo(t, tenant, seeds, d - 1, e);
    } else {
      var a :| a in Ball(t, tenant, seeds, d - 1) && Hop(t, tenant, a, e);
      var q := WalkTo(t, tenant, seeds, d - 1, a);
      WalkExtends(t, tenant, seeds, q, e);
      p := q + [e];
    }
  }

  lemma WalkExtends(t: Table, tenant: nat, seeds: set<EntityId>, q: seq<EntityId>, e: EntityId)
    requires Walk(t, tenant, seeds, q) && Hop(t, tenant, q[|q| - 1], e)
    ensures Walk(t, tenant, seeds, q + [e])
  {
  }

  lemma {:induction false} WalkStaysInBall(t: Table, tenant: nat, seeds: set<EntityId>, p: seq<EntityId>)
    requires Walk(t, tenant, seeds, p)
    ensures p[|p| - 1] in Ball(t, tenant, seeds, |p| - 1)
  {
    if |p| == 1 {
    } else {
      var q := p[..|p| - 1];
      WalkStaysInBall(t, tenant, seeds, q);
      assert Hop(t, tenant, q[|q| - 1], p[|p| - 1]);
    }
  }

  /** Expanding from everything visited reaches nothing that expanding from the newest layer would miss. */
  lemma FrontierSuffices(t: Table, tenant: nat, seeds: set<EntityId>, d: nat, e: EntityId)
    requires e in Ball(t, tenant, seeds, d + 1) && e !in Ball(t, tenant, seeds, d)
    ensures exists a :: Hop(t, tenant, a, e) && a in Ball(t, tenant, seeds, d)
                     && (d > 0 ==> a !in Ball(t, tenant, seeds, d - 1))
  {
    var a :| a in Ball(t, tenant, seeds, d) && Hop(t, tenant, a, e);
  }

  /** Once a round adds nothing, no later round would. */
  lemma {:induction false} EmptyRoundIsFinal(t: Table, tenant: nat, seeds: set<EntityId>, c: nat, d: nat)
    requires c < d && Ball(t, tenant, seeds, c) == Ball(t, tenant, seeds, c + 1)
    ensures Ball(t, tenant, seeds, d) == Ball(t, tenant, seeds, c)
  {
    if d == c + 1 {
    } else {
      EmptyRoundIsFinal(t, tenant, seeds, c, d - 1);
    }
  }

  lemma {:induction false} EmptySeedsReachNothing(t: Table, tenant: nat, d: nat)
    ensures Ball(t, tenant, {}, d) == {}
  {
    if d == 0 {
    } else {
      EmptySeedsReachNothing(t, tenant, d - 1);
    }
  }

  /** Whatever rows a round returns, they lie one hop beyond the ball that holds the visited entities. */
  lemma RoundStaysInBall(t: Table, tenant: nat, seeds: set<EntityId>, d: nat, visited: set<EntityId>, rows: seq<Row>)
    requires visited <= Ball(t, tenant, seeds, d) && Answers(t, tenant, visited, rows)
    ensures forall r :: r in rows ==> Close(t, r.id) && r.id in Ball(t, tenant, seeds, d + 1)
  {
  }

  /** What a round that saw every row adds is the next ball. */
  lemma FullRoundIsNextBall(t: Table, tenant: nat, seeds: set<EntityId>, d: nat, rows: seq<Row>)
    requires Answers(t, tenant, Ball(t, tenant, seeds, d), rows) && |rows| < FETCH_LIMIT
    ensures Ball(t, tenant, seeds, d) + RowIds(rows) == Ball(t, tenant, seeds, d + 1)
  {
    var b := Ball(t, tenant, seeds, d);
    forall e | e in Ball(t, tenant, seeds, d + 1) && e !in b
      ensures e in RowIds(rows)
    {
      var a :| a in b && Hop(t, tenant, a, e);
      assert Row(a, e) in rows && Row(a, e).id == e;
    }
    RoundStaysInBall(t, tenant, seeds, d, b, rows);
  }

  lemma PowStep(x: real, n: nat)
    ensures Power(x, 0) == 1.0 && Power(x, n + 1) == Power(x, n) * x
  {
  }

  // ---- What the row limit costs ----

  lemma FractionShrinks(y: real, x: real)
    requires 0.0 <= x <= 1.0 && y >= 0.0
    ensures 0.0 <= y * x <= y
  {
  }

  lemma {:induction false} PowNonNegative(x: real, n: nat)
    requires 0.0 <= x <= 1.0
    ensures 0.0 <= Power(x, n)
  {
    if n == 0 {
    } else {
      PowNonNegative(x, n - 1);
      FractionShrinks(Power(x, n - 1), x);
    }
  }

  lemma {:induction false} StepsDown(f: nat -> real, c: nat, d: nat)
    requires c <= d && forall n: nat :: f(n + 1) <= f(n)
    ensures f(d) <= f(c)
  {
    if c == d {
    } else {
      StepsDown(f, c, d - 1);
      assert f(d - 1 + 1) <= f(d - 1);
    }
  }

  lemma PowStepsDown(x: real, n: nat)
    requires 0.0 <= x <= 1.0
    ensures Power(x, n + 1) <= Power(x, n)
  {
    PowNonNegative(x, n);
    FractionShrinks(Power(x, n), x);
  }

  ghost function Powers(x: real): nat -> real {
    (n: nat) => Power(x, n)
  }

  lemma PowShrinks(x: real, c: nat, d: nat)
    requires 0.0 <= x <= 1.0 && c <= d
    ensures Powers(x)(d) <= Powers(x)(c)
  {
    forall n: nat ensures Powers(x)(n + 1) <= Powers(x)(n) {
      PowStepsDown(x, n);
    }
    StepsDown(Powers(x), c, d);
  }

  lemma QuotientNonNegative(x: real, y: real)
    requires x >= 0.0 && y > 0.0
    ensures x / y >= 0.0
  {
  }

  lemma BoostShrinks(t: Table, decay: real, e: EntityId, c: nat, d: nat)
    requires Close(t, e) && 0.0 <= decay <= 1.0 && c <= d
    ensures Booster(BaseBoosts(t), decay)(e, d) <= Booster(BaseBoosts(t), decay)(e, c)
  {
    PowShrinks(decay, c, d);
    var n := (|t[e].linked| - 1) as real;
    assert n * n >= 0.0;
    QuotientNonNegative(t[e].similarity.value * 0.5, 1.0 + 0.001 * (n * n));
    var base, x, y := BaseBoost(t[e]), Power(decay, d), Power(decay, c);
    assert base * x <= base * y;
  }

  /**
   * The row limit only loses: whatever ten rows each round kept, every boosted memory is
   * boosted by the walk that sees all rows, and by at least as much.
   */
  lemma TruncationOnlyLoses(t: Table, tenant: nat, seeds: set<EntityId>, decay: real, d: nat,
                            boosts: map<MemoryId, real>, found: map<EntityId, nat>,
                            full: map<MemoryId, real>, all: map<EntityId, nat>)
    requires 0.0 <= decay <= 1.0
    requires Inside(t, Balls(t, tenant, seeds), found, d) && Summarises(t, Booster(BaseBoosts(t), decay), boosts, found)
    requires Exact(Balls(t, tenant, seeds), all, d) && Summarises(t, Booster(BaseBoosts(t), decay), full, all)
    ensures forall m :: m in boosts ==> m in full && boosts[m] <= full[m]
  {
    BallsGrow(t, tenant, seeds);
    forall e | e in found
      ensures e in all && Booster(BaseBoosts(t), decay)(e, found[e]) <= Booster(BaseBoosts(t), decay)(e, all[e])
    {
      assert e in Balls(t, tenant, seeds)(d);
      BoostShrinks(t, decay, e, all[e], found[e]);
    }
    LargerBoosts(t, Booster(BaseBoosts(t), decay), boosts, found, full, all);
  }

  lemma LargerBoosts(t: Table, boost: (EntityId, nat) -> real,
                     boosts: map<MemoryId, real>, found: map<EntityId, nat>,
                     full: map<MemoryId, real>, all: map<EntityId, nat>)
    requires Summarises(t, boost, boosts, found) && Summarises(t, boost, full, all)
    requires forall e :: e in found ==> e in all && boost(e, found[e]) <= boost(e, all[e])
    ensures forall m :: m in boosts ==> m in full && boosts[m] <= full[m]
  {
    forall m | m in boosts ensures m in full && boosts[m] <= full[m] {
      var e :| e in found && e in t && m in t[e].linked && (boosts[m] == 0.0 || boosts[m] == boost(e, found[e]));
      assert e in all;
    }
  }

  // ---- The traversal ----

  /** The boost of `m` so far; zero when it has none. */
  function BoostOf(boosts: map<MemoryId, real>, m: MemoryId): real {
    if m in boosts then boosts[m] else 0.0
  }

  /** `merged` is `boosts` with every memory in `mids` raised to at least `hopBoost`. */
  ghost predicate Raised(boosts: map<MemoryId, real>, mids: seq<MemoryId>, hopBoost: real,
                         merged: map<MemoryId, real>) {
    && merged.Keys == boosts.Keys + (set m | m in mids)
    && forall m :: m in merged ==>
         merged[m] == if m in mids then Max(BoostOf(boosts, m), hopBoost) else BoostOf(boosts, m)
  }

  method MergeBoosts(boosts: map<MemoryId, real>, mids: seq<MemoryId>, hopBoost: real)
    returns (merged: map<MemoryId, real>)
    ensures Raised(boosts, mids, hopBoost, merged)
  {
    merged := boosts;
    for i := 0 to |mids|
      invariant Raised(boosts, mids[..i], hopBoost, merged)
    {
      merged := merged[mids[i] := Max(BoostOf(merged, mids[i]), hopBoost)];
      assert mids[..i + 1] == mids[..i] + [mids[i]];
    }
    assert mids[..|mids|] == mids;
  }

  /** Recording one more discovered entity keeps the boosts a summary of the discoveries. */
  lemma SummaryExtends(t: Table, boost: (EntityId, nat) -> real, boosts: map<MemoryId, real>,
                       merged: map<MemoryId, real>, found: map<EntityId, nat>, e: EntityId, d: nat)
    requires Summarises(t, boost, boosts, found)
    requires e !in found && e in t
    requires Raised(boosts, t[e].linked, boost(e, d), merged)
    ensures Summarises(t, boost, merged, found[e := d])
  {
    var after := found[e := d];
    forall m | m in merged ensures merged[m] >= 0.0 && Attained(t, boost, after, m, merged[m]) {
      if m in boosts {
        var x :| x in found && x in t && m in t[x].linked && (boosts[m] == 0.0 || boosts[m] == boost(x, found[x]));
        assert x in after && after[x] == found[x];
      }
      if m in t[e].linked {
        assert e in after && after[e] == d;
      }
    }
  }

  /** `found'` is `found` with the entities new to `visited` recorded at round `d`. */
  ghost predicate Records(found: map<EntityId, nat>, added: set<EntityId>, d: nat, found': map<EntityId, nat>) {
    && found'.Keys == found.Keys + added
    && (forall e :: e in found ==> found'[e] == found[e])
    && (forall e :: e in added ==> found'[e] == d)
  }

  /** At distance d every boost is the base boost times the weight of that distance. */
  ghost predicate Weighs(boost: (EntityId, nat) -> real, base: EntityId -> real, d: nat, weight: real) {
    forall e :: boost(e, d) == base(e) * weight
  }

  lemma RowIdsStep(rows: seq<Row>, i: nat)
    requires i < |rows|
    ensures RowIds(rows[..i + 1]) == RowIds(rows[..i]) + {rows[i].id} && rows[i].id in RowIds(rows)
  {
    assert rows[..i + 1] == rows[..i] + [rows[i]];
  }

  /** Merges the boost of a newly discovered entity into each memory it is linked to. */
  method VisitEntity(t: Table, eid: EntityId, boosts: map<MemoryId, real>, hopBoost: real,
                     ghost boost: (EntityId, nat) -> real, ghost found: map<EntityId, nat>, ghost d: nat)
    returns (merged: map<MemoryId, real>)
    requires eid in t && eid !in found && hopBoost == boost(eid, d)
    requires Summarises(t, boost, boosts, found)
    ensures Summarises(t, boost, merged, found[eid := d])
  {
    merged := MergeBoosts(boosts, t[eid].linked, hopBoost);
    SummaryExtends(t, boost, boosts, merged, found, eid, d);
  }

  /** A newly visited entity joins the frontier and the record. */
  lemma RoundGains(visited: set<EntityId>, visited': set<EntityId>, frontier: seq<EntityId>,
                   found: map<EntityId, nat>, found': map<EntityId, nat>, eid: EntityId, d: nat)
    requires visited <= visited' && found.Keys <= visited && eid !in visited'
    requires ToSet(frontier) == visited' - visited && Records(found, visited' - visited, d, found')
    ensures eid !in found'
    ensures ToSet(frontier + [eid]) == visited' + {eid} - visited
    ensures Records(found, visited' + {eid} - visited, d, found'[eid := d])
  {
    assert visited' + {eid} - visited == (visited' - visited) + {eid};
  }

  /** One round: visit each row's entity once and merge its boost. */
  method ExpandRound(t: Table, rows: seq<Row>, visited: set<EntityId>, boosts: map<MemoryId, real>,
                     base: EntityId -> real, currentDecay: real, ghost boost: (EntityId, nat) -> real,
                     ghost found: map<EntityId, nat>, ghost d: nat)
    returns (visited': set<EntityId>, frontier: seq<EntityId>, boosts': map<MemoryId, real>,
             ghost found': map<EntityId, nat>)
    requires Weighs(boost, base, d, currentDecay)
    requires found.Keys <= visited && Summarises(t, boost, boosts, found)
    requires RowIds(rows) <= t.Keys
    ensures visited' == visited + RowIds(rows)
    ensures ToSet(frontier) == visited' - visited
    ensures Records(found, visited' - visited, d, found')
    ensures Summarises(t, boost, boosts', found')
  {
    visited', frontier, boosts', found' := visited, [], boosts, found;
    for i := 0 to |rows|
      invariant visited' == visited + RowIds(rows[..i])
      invariant ToSet(frontier) == visited' - visited
      invariant Records(found, visited' - visited, d, found')
      invariant Summarises(t, boost, boosts', found')
    {
      RowIdsStep(rows, i);
      var eid := rows[i].id;
      if eid !in visited' {
        RoundGains(visited, visited', frontier, found, found', eid, d);
        visited' := visited' + {eid};
        frontier := frontier + [eid];
        boosts' := VisitEntity(t, eid, boosts', base(eid) * currentDecay, boost, found', d);
        found' := found'[eid := d];
      }
    }
    assert rows[..|rows|] == rows;
  }

  lemma RoundKeepsInside(t: Table, ball: nat -> set<EntityId>, found: map<EntityId, nat>, added: set<EntityId>,
                         found': map<EntityId, nat>, d: nat)
    requires Inside(t, ball, found, d) && Records(found, added, d + 1, found')
    requires forall e :: e in added ==> Close(t, e) && e in ball(d + 1) && e !in ball(0)
    ensures Inside(t, ball, found', d + 1)
  {
  }

  lemma RoundKeepsExact(ball: nat -> set<EntityId>, found: map<EntityId, nat>, found': map<EntityId, nat>, d: nat)
    requires Exact(ball, found, d) && Records(found, ball(d + 1) - ball(d), d + 1, found')
    requires ball(0) <= ball(d) <= ball(d + 1)
    ensures Exact(ball, found', d + 1)
  {
    forall e | e in found' ensures found'[e] <= d + 1 && AtDistance(ball, e, found'[e]) {
      if e in found { assert AtDistance(ball, e, found[e]); }
    }
  }

  /** What holds before each round: soundness always, exactness while no round hit the row limit. */
  ghost predicate RoundInvariant(t: Table, ball: nat -> set<EntityId>, fetch: set<EntityId> -> seq<Row>,
                                 visited: set<EntityId>, frontier: seq<EntityId>, found: map<EntityId, nat>, d: nat) {
    && visited == ball(0) + found.Keys && ball(0) !! found.Keys
    && Inside(t, ball, found, d)
    && (Untruncated(ball, fetch, d) ==> Exact(ball, found, d))
    && (Untruncated(ball, fetch, d) && frontier == [] ==> d > 0 && ball(d - 1) == ball(d))
  }

  lemma RoundKeepsInvariant(t: Table, ball: nat -> set<EntityId>, fetch: set<EntityId> -> seq<Row>,
                            visited: set<EntityId>, frontier: seq<EntityId>, found: map<EntityId, nat>, d: nat,
                            visited': set<EntityId>, frontier': seq<EntityId>, found': map<EntityId, nat>)
    requires RoundInvariant(t, ball, fetch, visited, frontier, found, d)
    requires ball(0) <= ball(d) <= ball(d + 1)
    requires forall e :: e in visited' - visited ==> Close(t, e) && e in ball(d + 1)
    requires visited == ball(d) && |fetch(ball(d))| < FETCH_LIMIT ==> visited' == ball(d + 1)
    requires visited <= visited' && ToSet(frontier') == visited' - visited
    requires Records(found, visited' - visited, d + 1, found')
    ensures RoundInvariant(t, ball, fetch, visited', frontier', found', d + 1)
  {
    RoundKeepsInside(t, ball, found, visited' - visited, found', d);
    if Untruncated(ball, fetch, d + 1) {
      assert visited == ball(d);
      RoundKeepsExact(ball, found, found', d);
    }
  }

  /** What the rounds need to know about the balls and the query, whatever the balls are made of. */
  ghost predicate Layered(t: Table, ball: nat -> set<EntityId>, fetch: set<EntityId> -> seq<Row>) {
    && (forall c, d :: 0 <= c <= d ==> ball(c) <= ball(d))
    && (forall v: set<EntityId>, d: nat, e :: v <= ball(d) && e in RowIds(fetch(v)) ==> Close(t, e) && e in ball(d + 1))
    && (forall d: nat :: |fetch(ball(d))| < FETCH_LIMIT ==> ball(d) + RowIds(fetch(ball(d))) == ball(d + 1))
    && (forall d, e: nat :: 0 < d <= e && ball(d - 1) == ball(d) ==> ball(e) == ball(d))
  }

  lemma BallsAreLayered(t: Table, tenant: nat, seeds: set<EntityId>, fetch: set<EntityId> -> seq<Row>)
    requires IsNeighbourQuery(t, tenant, fetch)
    ensures Layered(t, Balls(t, tenant, seeds), fetch)
  {
    BallsGrow(t, tenant, seeds);
    RoundsStayInBalls(t, tenant, seeds, fetch);
    FullRoundsAreNextBalls(t, tenant, seeds, fetch);
    EmptyRoundsAreFinal(t, tenant, seeds);
  }

  lemma RoundsStayInBalls(t: Table, tenant: nat, seeds: set<EntityId>, fetch: set<EntityId> -> seq<Row>)
    requires IsNeighbourQuery(t, tenant, fetch)
    ensures forall v: set<EntityId>, d: nat, e :: v <= Balls(t, tenant, seeds)(d) && e in RowIds(fetch(v)) ==>
              Close(t, e) && e in Balls(t, tenant, seeds)(d + 1)
  {
    forall v: set<EntityId>, d: nat, e | v <= Balls(t, tenant, seeds)(d) && e in RowIds(fetch(v))
      ensures Close(t, e) && e in Balls(t, tenant, seeds)(d + 1)
    {
      RoundStaysInBall(t, tenant, seeds, d, v, fetch(v));
    }
  }

  lemma FullRoundsAreNextBalls(t: Table, tenant: nat, seeds: set<EntityId>, fetch: set<EntityId> -> seq<Row>)
    requires IsNeighbourQuery(t, tenant, fetch)
    ensures var ball := Balls(t, tenant, seeds);
            forall d: nat :: |fetch(ball(d))| < FETCH_LIMIT ==> ball(d) + RowIds(fetch(ball(d))) == ball(d + 1)
  {
    forall d: nat | |fetch(Ball(t, tenant, seeds, d))| < FETCH_LIMIT
      ensures Ball(t, tenant, seeds, d) + RowIds(fetch(Ball(t, tenant, seeds, d))) == Ball(t, tenant, seeds, d + 1)
    {
      FullRoundIsNextBall(t, tenant, seeds, d, fetch(Ball(t, tenant, seeds, d)));
    }
  }

  lemma EmptyRoundsAreFinal(t: Table, tenant: nat, seeds: set<EntityId>)
    ensures var ball := Balls(t, tenant, seeds);
            forall d, e: nat :: 0 < d <= e && ball(d - 1) == ball(d) ==> ball(e) == ball(d)
  {
    forall d, e: nat | 0 < d <= e && Ball(t, tenant, seeds, d - 1) == Ball(t, tenant, seeds, d)
      ensures Ball(t, tenant, seeds, e) == Ball(t, tenant, seeds, d)
    {
      EmptyRoundIsFinal(t, tenant, seeds, d - 1, e);
    }
  }

  /** Nothing is left to discover once a round found nothing. */
  lemma ExhaustedIsDone(t: Table, ball: nat -> set<EntityId>, fetch: set<EntityId> -> seq<Row>,
                        visited: set<EntityId>, found: map<EntityId, nat>, d: nat, maxDepth: nat)
    requires d <= maxDepth && RoundInvariant(t, ball, fetch, visited, [], found, d)
    requires d > 0 && ball(d - 1) == ball(d) ==> ball(maxDepth) == ball(d)
    ensures Inside(t, ball, found, maxDepth)
    ensures Untruncated(ball, fetch, maxDepth) ==> Exact(ball, found, maxDepth)
  {
    if Untruncated(ball, fetch, maxDepth) {
      assert Untruncated(ball, fetch, d);
    }
  }

  /** Fetch the neighbours of everything visited, and expand them. */
  lemma VisitedInBall(t: Table, ball: nat -> set<EntityId>, fetch: set<EntityId> -> seq<Row>,
                      visited: set<EntityId>, frontier: seq<EntityId>, found: map<EntityId, nat>, d: nat)
    requires Layered(t, ball, fetch) && RoundInvariant(t, ball, fetch, visited, frontier, found, d)
    ensures visited <= ball(d)
  {
    forall e | e in found ensures e in ball(d) { assert e in ball(found[e]); }
  }

  method RunRound(t: Table, fetch: set<EntityId> -> seq<Row>, visited: set<EntityId>, ghost frontier: seq<EntityId>,
                  boosts: map<MemoryId, real>, base: EntityId -> real, currentDecay: real,
                  ghost ball: nat -> set<EntityId>, ghost boost: (EntityId, nat) -> real,
                  ghost found: map<EntityId, nat>, ghost d: nat)
    returns (visited': set<EntityId>, frontier': seq<EntityId>, boosts': map<MemoryId, real>,
             ghost found': map<EntityId, nat>)
    requires Layered(t, ball, fetch) && Weighs(boost, base, d + 1, currentDecay)
    requires Summarises(t, boost, boosts, found)
    requires RoundInvariant(t, ball, fetch, visited, frontier, found, d)
    ensures Summarises(t, boost, boosts', found')
    ensures RoundInvariant(t, ball, fetch, visited', frontier', found', d + 1)
  {
    var rows := fetch(visited);
    VisitedInBall(t, ball, fetch, visited, frontier, found, d);
    assert forall e :: e in RowIds(rows) ==> Close(t, e);
    visited', frontier', boosts', found' :=
      ExpandRound(t, rows, visited, boosts, base, currentDecay, boost, found, d + 1);
    RoundKeepsInvariant(t, ball, fetch, visited, frontier, found, d, visited', frontier', found');
  }

  method DecayOnce(currentDecay: real, decay: real, ghost d: nat) returns (next: real)
    requires currentDecay == Power(decay, d)
    ensures next == Power(decay, d + 1)
  {
    next := currentDecay * decay;
  }

  /** The rounds, for any layering of the entities and any boost that decays as the loop does. */
  method RunRounds(t: Table, seedIds: seq<EntityId>, maxDepth: nat, decay: real, fetch: set<EntityId> -> seq<Row>,
                   base: EntityId -> real, ghost ball: nat -> set<EntityId>, ghost boost: (EntityId, nat) -> real)
    returns (boosts: map<MemoryId, real>, ghost found: map<EntityId, nat>)
    requires seedIds != [] && ball(0) == ToSet(seedIds) && Layered(t, ball, fetch)
    requires forall d: nat :: Weighs(boost, base, d, Power(decay, d))
    ensures Summarises(t, boost, boosts, found)
    ensures Inside(t, ball, found, maxDepth)
    ensures Untruncated(ball, fetch, maxDepth) ==> Exact(ball, found, maxDepth)
  {
    boosts, found := map[], map[];
    var visited := ToSet(seedIds);
    var frontier := seedIds;
    var currentDecay := decay;
    assert currentDecay == Power(decay, 1) by { PowStep(decay, 0); }
    for depth := 0 to maxDepth
      invariant currentDecay == Power(decay, depth + 1)
      invariant Summarises(t, boost, boosts, found)
      invariant RoundInvariant(t, ball, fetch, visited, frontier, found, depth)
    {
      if frontier == [] {
        ExhaustedIsDone(t, ball, fetch, visited, found, depth, maxDepth);
        return;
      }
      visited, frontier, boosts, found :=
        RunRound(t, fetch, visited, frontier, boosts, base, currentDecay, ball, boost, found, depth);
      currentDecay := DecayOnce(currentDecay, decay, depth + 1);
    }
  }

  lemma DistanceIsUnique(ball: nat -> set<EntityId>, e: EntityId, r: nat, s: nat)
    requires AtDistance(ball, e, r) && AtDistance(ball, e, s)
    requires forall c, d :: 0 <= c <= d ==> ball(c) <= ball(d)
    ensures r == s
  {
  }

  lemma NothingReached(t: Table, tenant: nat, boost: (EntityId, nat) -> real, d: nat)
    ensures Exact(Balls(t, tenant, {}), map[], d) && Summarises(t, boost, map[], map[])
  {
    EmptySeedsReachNothing(t, tenant, d);
  }

  /** With every entity at its true distance, the boosts are those of the balls. */
  lemma ExactIsBoostTable(t: Table, ball: nat -> set<EntityId>, boost: (EntityId, nat) -> real, d: nat,
                          boosts: map<MemoryId, real>, found: map<EntityId, nat>)
    requires Summarises(t, boost, boosts, found) && Exact(ball, found, d)
    requires forall c, e :: 0 <= c <= e ==> ball(c) <= ball(e)
    ensures IsBoostTable(t, ball, boost, d, boosts)
  {
    forall e, r: nat | Reached(t, ball, d, e, r) ensures e in found && found[e] == r {
      assert ball(r) <= ball(d) && ball(0) <= ball(r - 1);
      DistanceIsUnique(ball, e, r, found[e]);
    }
    forall m | m in boosts ensures Given(t, ball, boost, d, m, boosts[m]) {
      assert Attained(t, boost, found, m, boosts[m]);
      var e :| e in found && e in t && m in t[e].linked && (boosts[m] == 0.0 || boosts[m] == boost(e, found[e]));
      assert Reached(t, ball, d, e, found[e]);
    }
  }

  /**
   * The traversal. `found` records the round in which each entity was discovered.
   * `fetch` is the neighbour query: any function whose answers obey the query.
   */
  method BfsEntityTraversal(t: Table, tenant: nat, seedIds: seq<EntityId>, maxDepth: nat, decay: real,
                            fetch: set<EntityId> -> seq<Row>)
    returns (boosts: map<MemoryId, real>, ghost found: map<EntityId, nat>)
    requires IsNeighbourQuery(t, tenant, fetch)
    ensures Untruncated(Balls(t, tenant, ToSet(seedIds)), fetch, maxDepth) ==>
              IsBoostTable(t, Balls(t, tenant, ToSet(seedIds)), Booster(BaseBoosts(t), decay), maxDepth, boosts)
    ensures Summarises(t, Booster(BaseBoosts(t), decay), boosts, found)
    ensures Inside(t, Balls(t, tenant, ToSet(seedIds)), found, maxDepth)
    ensures Untruncated(Balls(t, tenant, ToSet(seedIds)), fetch, maxDepth) ==>
              Exact(Balls(t, tenant, ToSet(seedIds)), found, maxDepth)
  {
    var base := BaseBoosts(t);
    ghost var ball, boost := Balls(t, tenant, ToSet(seedIds)), Booster(BaseBoosts(t), decay);
    BallsGrow(t, tenant, ToSet(seedIds));
    if seedIds == [] {
      assert ToSet(seedIds) == {};
      NothingReached(t, tenant, boost, maxDepth);
      boosts, found := map[], map[];
    } else {
      BallsAreLayered(t, tenant, ToSet(seedIds), fetch);
      boosts, found := RunRounds(t, seedIds, maxDepth, decay, fetch, base, ball, boost);
    }
    if Untruncated(ball, fetch, maxDepth) { ExactIsBoostTable(t, ball, boost, maxDepth, boosts, found); }
  }

  // ---- What a boost is ----

  /** Half the similarity for an entity with one memory; wide entities count less, by the square of the others. */
  lemma BoostEquation(e: Entity, similarity: real, others: int)
    requires e.similarity == Some(similarity) && others == |e.linked| - 1
    ensures BaseBoost(e) * (1000.0 + (others * others) as real) == 500.0 * similarity
    ensures others == 0 ==> BaseBoost(e) == similarity / 2.0
  {
    var n := others as real;
    var d := 1.0 + 0.001 * (n * n);
    assert n * n >= 0.0;
    assert BaseBoost(e) * d == similarity * 0.5;
    assert (others * others) as real == n * n;
    assert BaseBoost(e) * (1000.0 * d) == 1000.0 * (BaseBoost(e) * d);
  }

  /** Every hop multiplies by the decay, the first included. */
  lemma BoostDecays(base: EntityId -> real, decay: real, e: EntityId, d: nat)
    ensures Booster(base, decay)(e, 1) == base(e) * decay
    ensures Booster(base, decay)(e, d + 1) == Booster(base, decay)(e, d) * decay
    ensures Booster(base, 0.5)(e, 2) == base(e) / 4.0
  {
    assert base(e) * Power(decay, d + 1) == base(e) * (Power(decay, d) * decay) == base(e) * Power(decay, d) * decay;
    assert Power(decay, 1) == decay;
    assert Power(0.5, 1) == 0.5;
    assert Power(0.5, 2) == Power(0.5, 1) * 0.5 == 0.25;
  }
}
