/**
 * How reported outcomes move the confidence of the memories they implicate
 * (`_record_work_order_outcome` and `_log_session_reads` in src/qortia/recall.py).
 */
module Confidence {
  import opened Results
  import opened Arithmetic

  type Order = nat

  datatype Outcome = Success | MinorFailure | CriticalFailure

  const FLOOR := 0.10
  const CAP := 1.0

  function Multiplier(o: Outcome): real {
    match o
    case Success => 1.05
    case MinorFailure => 0.85
    case CriticalFailure => 0.60
  }

  function Clamped(x: real): real {
    var capped := if x < CAP then x else CAP;
    if capped > FLOOR then capped else FLOOR
  }

  function Adjust(c: real, o: Outcome): real {
    Clamped(c * Multiplier(o))
  }

  predicate InRange(c: real) {
    FLOOR <= c <= CAP
  }

  // ---- One memory over its outcomes ----

  function After(c: real, h: seq<Outcome>): real {
    if h == [] then c else Adjust(After(c, h[..|h| - 1]), h[|h| - 1])
  }

  /** The value with neither floor nor cap: the plain product. */
  function Unclamped(c: real, h: seq<Outcome>): real {
    if h == [] then c else Unclamped(c, h[..|h| - 1]) * Multiplier(h[|h| - 1])
  }

  lemma {:induction false} AfterInRange(c: real, h: seq<Outcome>)
    requires InRange(c)
    ensures InRange(After(c, h))
  {
    if h == [] {
    } else {
      AfterInRange(c, h[..|h| - 1]);
    }
  }

  lemma AdjustKeepsOrder(c: real, d: real, o: Outcome)
    requires c <= d
    ensures Adjust(c, o) <= Adjust(d, o)
  {
  }

  /** The same outcomes keep two memories in order. */
  lemma {:induction false} AfterKeepsOrder(c: real, d: real, h: seq<Outcome>)
    requires c <= d
    ensures After(c, h) <= After(d, h)
  {
    if h == [] {
    } else {
      AfterKeepsOrder(c, d, h[..|h| - 1]);
      AdjustKeepsOrder(After(c, h[..|h| - 1]), After(d, h[..|h| - 1]), h[|h| - 1]);
    }
  }

  function Between(low: real, x: real, high: real): real {
    if x < low then low else if x > high then high else x
  }

  /**
   * However often the floor and the cap were met on the way, the value is the plain product held
   * between what the floor and the cap would themselves have become.
   */
  lemma {:induction false} HistoryCollapses(c: real, h: seq<Outcome>)
    requires InRange(c)
    ensures After(c, h) == Between(After(FLOOR, h), Unclamped(c, h), After(CAP, h))
  {
    if h == [] {
    } else {
      var before := h[..|h| - 1];
      HistoryCollapses(c, before);
      AfterKeepsOrder(FLOOR, CAP, before);
      AfterInRange(FLOOR, before);
      AfterInRange(CAP, before);
      AdjustBetween(After(FLOOR, before), Unclamped(c, before), After(CAP, before), h[|h| - 1]);
    }
  }

  lemma AdjustBetween(low: real, x: real, high: real, o: Outcome)
    requires FLOOR <= low <= high <= CAP
    ensures Adjust(Between(low, x, high), o) == Between(Adjust(low, o), x * Multiplier(o), Adjust(high, o))
  {
  }

  /** Once a history takes the floor and the cap to one value, it takes everything there. */
  lemma StartIsForgotten(c: real, h: seq<Outcome>)
    requires InRange(c) && After(FLOOR, h) == After(CAP, h)
    ensures After(c, h) == After(FLOOR, h)
  {
    AfterKeepsOrder(FLOOR, c, h);
    AfterKeepsOrder(c, CAP, h);
  }

  /** Failures of either kind multiply up, in any order, down to the floor. */
  lemma {:induction false} FailuresMultiply(c: real, h: seq<Outcome>)
    requires InRange(c) && Success !in h
    ensures 0.0 < Unclamped(c, h) <= CAP
    ensures After(c, h) == if Unclamped(c, h) > FLOOR then Unclamped(c, h) else FLOOR
  {
    if h == [] {
    } else {
      FailuresMultiply(c, h[..|h| - 1]);
    }
  }

  function Repeated(o: Outcome, n: nat): seq<Outcome> {
    seq(n, i => o)
  }

  lemma {:induction false} UnclampedOfRepeated(c: real, o: Outcome, n: nat)
    ensures Unclamped(c, Repeated(o, n)) == c * Power(Multiplier(o), n)
  {
    if n == 0 {
    } else {
      UnclampedOfRepeated(c, o, n - 1);
      assert Repeated(o, n)[..n - 1] == Repeated(o, n - 1);
      var p, m := Power(Multiplier(o), n - 1), Multiplier(o);
      assert c * p * m == c * (p * m);
    }
  }

  lemma CriticalFailures(c: real, n: nat, p: real)
    requires InRange(c) && p == c * Power(0.60, n)
    ensures After(c, Repeated(CriticalFailure, n)) == if p > FLOOR then p else FLOOR
  {
    var h := Repeated(CriticalFailure, n);
    UnclampedOfRepeated(c, CriticalFailure, n);
    FailuresMultiply(c, h);
  }

  /** Successes multiply up to the cap. */
  lemma {:induction false} SuccessesMultiply(c: real, h: seq<Outcome>)
    requires InRange(c) && forall i :: 0 <= i < |h| ==> h[i] == Success
    ensures Unclamped(c, h) >= FLOOR
    ensures After(c, h) == if Unclamped(c, h) < CAP then Unclamped(c, h) else CAP
  {
    if h == [] {
    } else {
      SuccessesMultiply(c, h[..|h| - 1]);
    }
  }

  lemma Successes(c: real, n: nat, p: real)
    requires InRange(c) && p == c * Power(1.05, n)
    ensures After(c, Repeated(Success, n)) == if p < CAP then p else CAP
  {
    var h := Repeated(Success, n);
    UnclampedOfRepeated(c, Success, n);
    SuccessesMultiply(c, h);
  }

  lemma {:induction false} PowerPositive(x: real, n: nat)
    requires x > 0.0
    ensures Power(x, n) > 0.0
  {
    if n == 0 {
    } else {
      PowerPositive(x, n - 1);
      ProductSign(Power(x, n - 1), x, Power(x, n - 1) * x);
    }
  }

  lemma {:induction false} PowerMonotone(m: nat, n: nat)
    requires m <= n
    ensures Power(1.05, m) <= Power(1.05, n) && Power(0.60, n) <= Power(0.60, m)
  {
    if m == n {
    } else {
      PowerMonotone(m, n - 1);
      PowerPositive(1.05, n - 1);
      PowerPositive(0.60, n - 1);
    }
  }

  lemma {:induction false} AfterConcat(c: real, g: seq<Outcome>, h: seq<Outcome>)
    ensures After(c, g + h) == After(After(c, g), h)
  {
    if h == [] {
      assert g + h == g;
    } else {
      assert (g + h)[..|g + h| - 1] == g + h[..|h| - 1];
      AfterConcat(c, g, h[..|h| - 1]);
    }
  }

  /** Five critical failures in a row erase whatever came before them. */
  lemma FiveFailuresForget(c: real, d: real, g: seq<Outcome>, k: seq<Outcome>, h: seq<Outcome>)
    requires InRange(c) && InRange(d)
    ensures After(c, g + Repeated(CriticalFailure, 5) + h) == After(d, k + Repeated(CriticalFailure, 5) + h)
  {
    var five := Repeated(CriticalFailure, 5);
    AfterConcat(c, g + five, h);
    AfterConcat(d, k + five, h);
    AfterConcat(c, g, five);
    AfterConcat(d, k, five);
    AfterInRange(c, g);
    AfterInRange(d, k);
    FloorAfterFive(5);
    AfterKeepsOrder(FLOOR, CAP, five);
    AfterInRange(FLOOR, five);
    StartIsForgotten(After(c, g), five);
    StartIsForgotten(After(d, k), five);
  }

  /** From full confidence, minor failures reach the floor at the fifteenth. */
  lemma FloorAfterFifteen(n: nat)
    ensures After(CAP, Repeated(MinorFailure, n)) == FLOOR <==> n >= 15
  {
    var h := Repeated(MinorFailure, n);
    UnclampedOfRepeated(CAP, MinorFailure, n);
    FailuresMultiply(CAP, h);
    PowersOfMinor();
    if n >= 15 { PowerFalls(0.85, 15, n); } else { PowerFalls(0.85, n, 14); }
  }

  lemma PowersOfMinor()
    ensures Power(0.85, 15) < 0.1 < Power(0.85, 14)
  {
    PowerSum(0.85, 7, 7);
    assert Power(0.85, 3) == 0.614125;
    assert 0.32057 < Power(0.85, 7) < 0.32058;
    Squares(0.32057, Power(0.85, 7), 0.32058);
    assert Power(0.85, 15) == Power(0.85, 14) * 0.85;
  }

  lemma {:induction false} PowerFalls(x: real, m: nat, n: nat)
    requires m <= n && 0.0 < x <= 1.0
    ensures Power(x, n) <= Power(x, m)
  {
    if m == n {
    } else {
      PowerFalls(x, m, n - 1);
      PowerPositive(x, n - 1);
      ProductSign(Power(x, n - 1), 1.0 - x, Power(x, n - 1) * (1.0 - x));
      assert Power(x, n) == Power(x, n - 1) - Power(x, n - 1) * (1.0 - x);
    }
  }

  /** From full confidence, critical failures reach the floor at the fifth. */
  lemma FloorAfterFive(n: nat)
    ensures After(CAP, Repeated(CriticalFailure, n)) == FLOOR <==> n >= 5
  {
    CriticalFailures(CAP, n, Power(0.60, n));
    assert Power(0.60, 4) == 0.1296;
    assert Power(0.60, 5) == 0.07776;
    if n >= 5 { PowerMonotone(5, n); } else { PowerMonotone(n, 4); }
  }

  lemma {:induction false} PowerSum(x: real, m: nat, n: nat)
    ensures Power(x, m + n) == Power(x, m) * Power(x, n)
  {
    if n == 0 {
    } else {
      PowerSum(x, m, n - 1);
    }
  }

  lemma PowersOfSuccess()
    ensures Power(1.05, 47) < 10.0 < Power(1.05, 48)
  {
    PowerSum(1.05, 6, 6);
    PowerSum(1.05, 12, 12);
    PowerSum(1.05, 24, 24);
    assert Power(1.05, 6) == 1.340095640625;
    assert 1.7958 < Power(1.05, 12) < 1.7959;
    Squares(1.7958, Power(1.05, 12), 1.7959);
    assert 3.2248 < Power(1.05, 24) < 3.2253;
    Squares(3.2248, Power(1.05, 24), 3.2253);
    assert Power(1.05, 48) == Power(1.05, 47) * 1.05;
  }

  lemma Squares(low: real, x: real, high: real)
    requires 0.0 < low < x < high
    ensures low * low < x * x < high * high
  {
    ProductSign(x - low, x + low, (x - low) * (x + low));
    ProductSign(high - x, high + x, (high - x) * (high + x));
  }

  /** From the floor, successes regain full confidence at the forty-eighth. */
  lemma CapAfterFortyEight(n: nat)
    ensures After(FLOOR, Repeated(Success, n)) == CAP <==> n >= 48
  {
    Successes(FLOOR, n, FLOOR * Power(1.05, n));
    PowersOfSuccess();
    if n >= 48 { PowerMonotone(48, n); } else { PowerMonotone(n, 47); }
  }

  // ---- The tables ----

  datatype Report = Report(outcome: Outcome, memoryCount: nat)

  /**
   * The confidence of the memories, the memory ids logged against work orders, and the outcome
   * records, of which a work order has at most one.
   */
  datatype State = State(confidence: map<Id, real>, logged: seq<(Order, Id)>, records: map<Order, Report>)

  datatype Event =
    | Recalled(order: Order, results: seq<RecallResult>)
    | Reported(order: Order, outcome: Outcome)

  function Implicated(logged: seq<(Order, Id)>, order: Order): set<Id> {
    set r | r in logged && r.0 == order :: r.1
  }

  function PrivateReads(order: Order, results: seq<RecallResult>): seq<(Order, Id)> {
    if results == [] then []
    else PrivateReads(order, results[..|results| - 1]) +
         if results[|results| - 1].scope == Private then [(order, results[|results| - 1].id)] else []
  }

  function Adjusted(confidence: map<Id, real>, ids: set<Id>, o: Outcome): map<Id, real> {
    map id | id in confidence :: if id in ids then Adjust(confidence[id], o) else confidence[id]
  }

  function Recorded(s: State, order: Order, o: Outcome): State {
    var ids := Implicated(s.logged, order);
    s.(confidence := Adjusted(s.confidence, ids, o),
       records := if order in s.records then s.records else s.records[order := Report(o, |ids|)])
  }

  function Step(s: State, e: Event): State {
    match e
    case Recalled(order, results) => s.(logged := s.logged + PrivateReads(order, results))
    case Reported(order, o) => Recorded(s, order, o)
  }

  function Run(s: State, es: seq<Event>): State {
    if es == [] then s else Step(Run(s, es[..|es| - 1]), es[|es| - 1])
  }

  /** The outcomes reported for work orders that had by then recalled the memory. */
  function OutcomesOf(s: State, es: seq<Event>, id: Id): seq<Outcome> {
    if es == [] then []
    else
      var before, e := es[..|es| - 1], es[|es| - 1];
      OutcomesOf(s, before, id) +
      if e.Reported? && id in Implicated(Run(s, before).logged, e.order) then [e.outcome] else []
  }

  /** A memory's confidence is a function of its own outcomes. */
  lemma {:induction false} ConfidenceFollowsOutcomes(s: State, es: seq<Event>, id: Id)
    requires id in s.confidence
    ensures id in Run(s, es).confidence
    ensures Run(s, es).confidence[id] == After(s.confidence[id], OutcomesOf(s, es, id))
  {
    if es == [] {
    } else {
      var before, e := es[..|es| - 1], es[|es| - 1];
      ConfidenceFollowsOutcomes(s, before, id);
      var h := OutcomesOf(s, before, id);
      if e.Reported? && id in Implicated(Run(s, before).logged, e.order) {
        assert (h + [e.outcome])[..|h|] == h;
      } else {
        assert h + [] == h;
      }
    }
  }

  /** Over any run confidence keeps to its range. */
  lemma RunStaysInRange(s: State, es: seq<Event>, id: Id)
    requires id in s.confidence && InRange(s.confidence[id])
    ensures id in Run(s, es).confidence && InRange(Run(s, es).confidence[id])
  {
    ConfidenceFollowsOutcomes(s, es, id);
    AfterInRange(s.confidence[id], OutcomesOf(s, es, id));
  }

  /** Over any run two memories with the same outcomes keep their order. */
  lemma SharedOutcomesKeepOrder(s: State, es: seq<Event>, x: Id, y: Id)
    requires x in s.confidence && y in s.confidence
    requires FLOOR <= s.confidence[x] <= s.confidence[y] <= CAP
    requires OutcomesOf(s, es, x) == OutcomesOf(s, es, y)
    ensures x in Run(s, es).confidence && y in Run(s, es).confidence
    ensures Run(s, es).confidence[x] <= Run(s, es).confidence[y]
  {
    ConfidenceFollowsOutcomes(s, es, x);
    ConfidenceFollowsOutcomes(s, es, y);
    AfterKeepsOrder(s.confidence[x], s.confidence[y], OutcomesOf(s, es, x));
  }

  /** A work order keeps the outcome it was first given. */
  lemma {:induction false} FirstRecordStands(s: State, es: seq<Event>, order: Order)
    requires order in s.records
    ensures order in Run(s, es).records && Run(s, es).records[order] == s.records[order]
  {
    if es == [] {
    } else {
      FirstRecordStands(s, es[..|es| - 1], order);
    }
  }

  /** Here a second report of one failure lowers the confidence again, and changes no record. */
  lemma RepeatLowersAgain(s: State)
    requires s == State(map[7 := 1.0], [(3, 7), (3, 7), (4, 8)], map[])
    ensures var once := Recorded(s, 3, CriticalFailure);
            var twice := Recorded(once, 3, CriticalFailure);
            && once.confidence == map[7 := 0.6] && twice.confidence == map[7 := 0.36]
            && once.records == twice.records == map[3 := Report(CriticalFailure, 1)]
  {
    assert (3, 7) in s.logged;
    assert Implicated(s.logged, 3) == {7};
    assert Adjusted(map[7 := 1.0], {7}, CriticalFailure) == map[7 := 0.6];
  }

  /** The value an outcome no longer moves. */
  function Extreme(o: Outcome): real {
    if o == Success then CAP else FLOOR
  }

  /**
   * Reporting an outcome again adds no record, yet it leaves everything as it was exactly when
   * every implicated memory had already been driven to the end of its range.
   */
  lemma RepeatIsHarmlessIff(s: State, order: Order, o: Outcome)
    requires forall id :: id in s.confidence ==> InRange(s.confidence[id])
    ensures var t := Recorded(s, order, o);
            Recorded(t, order, o) == t <==>
            forall id :: id in t.confidence && id in Implicated(s.logged, order) ==> t.confidence[id] == Extreme(o)
  {
    var t := Recorded(s, order, o);
    var ids := Implicated(s.logged, order);
    var u := Recorded(t, order, o);
    assert t.logged == s.logged && u.records == t.records;
    forall id | id in t.confidence && id in ids
      ensures u.confidence[id] == t.confidence[id] <==> t.confidence[id] == Extreme(o)
    {
      assert InRange(t.confidence[id]);
      MovesUnlessExtreme(t.confidence[id], o);
    }
    assert t.confidence.Keys == u.confidence.Keys;
    if u.confidence != t.confidence {
      var id :| id in t.confidence && u.confidence[id] != t.confidence[id];
    }
  }

  lemma MovesUnlessExtreme(c: real, o: Outcome)
    requires InRange(c)
    ensures Adjust(c, o) == c <==> c == Extreme(o)
  {
  }

  // ---- Which memories an outcome implicates ----

  /** A recall logs the ids of its private results, in order, and no others. */
  lemma {:induction false} LoggedArePrivate(order: Order, results: seq<RecallResult>, x: Order, id: Id)
    ensures (x, id) in PrivateReads(order, results) <==>
            x == order && exists r :: r in results && r.scope == Private && r.id == id
  {
    if results == [] {
    } else {
      var n := |results| - 1;
      LoggedArePrivate(order, results[..n], x, id);
      assert forall r :: r in results <==> r in results[..n] || r == results[n];
    }
  }

  /** The event shows the memory as a private result of the work order. */
  ghost predicate Shows(e: Event, order: Order, id: Id) {
    e.Recalled? && e.order == order && exists r :: r in e.results && r.scope == Private && r.id == id
  }

  /** A memory is implicated by a work order exactly when some recall under that order returned it as a private one. */
  lemma {:induction false} ImplicatedIff(s: State, es: seq<Event>, order: Order, id: Id)
    ensures id in Implicated(Run(s, es).logged, order) <==>
            (order, id) in s.logged || exists i :: 0 <= i < |es| && Shows(es[i], order, id)
  {
    if es == [] {
    } else {
      var n := |es| - 1;
      ImplicatedIff(s, es[..n], order, id);
      if es[n].Recalled? { LoggedArePrivate(es[n].order, es[n].results, order, id); }
      assert id in Implicated(Run(s, es).logged, order) <==>
             id in Implicated(Run(s, es[..n]).logged, order) || Shows(es[n], order, id) by {
        assert forall x :: x in Implicated(Run(s, es).logged, order) <==> (order, x) in Run(s, es).logged;
        assert forall x :: x in Implicated(Run(s, es[..n]).logged, order) <==> (order, x) in Run(s, es[..n]).logged;
      }
      assert forall i :: 0 <= i < n ==> es[..n][i] == es[i];
    }
  }

  // ---- The operations ----

  class Ledger {
    var confidence: map<Id, real>
    var logged: seq<(Order, Id)>
    var records: map<Order, Report>

    constructor (initial: map<Id, real>)
      ensures Snapshot() == State(initial, [], map[])
    {
      confidence, logged, records := initial, [], map[];
    }

    function Snapshot(): State
      reads this
    {
      State(confidence, logged, records)
    }

    method LogSessionReads(order: Order, results: seq<RecallResult>)
      modifies this`logged
      ensures Snapshot() == Step(old(Snapshot()), Recalled(order, results))
    {
      var ids: seq<Id> := [];
      for i := 0 to |results|
        invariant logged == old(logged) && Paired(order, ids) == PrivateReads(order, results[..i])
      {
        assert results[..i + 1][..i] == results[..i];
        if results[i].scope == Private { ids := ids + [results[i].id]; }
      }
      assert results[..|results|] == results;
      if ids == [] { return; }
      logged := logged + Paired(order, ids);
    }

    static function Paired(order: Order, ids: seq<Id>): seq<(Order, Id)> {
      seq(|ids|, i requires 0 <= i < |ids| => (order, ids[i]))
    }

    method RecordWorkOrderOutcome(order: Order, outcome: Outcome)
      modifies this`confidence, this`records
      ensures Snapshot() == Step(old(Snapshot()), Reported(order, outcome))
    {
      var multiplier := match outcome case Success => 1.05 case MinorFailure => 0.85 case CriticalFailure => 0.60;
      var ids := set r | r in logged && r.0 == order :: r.1;
      if ids != {} {
        confidence := map id | id in confidence ::
          if id in ids then Clamped(confidence[id] * multiplier) else confidence[id];
      }
      assert confidence == Adjusted(old(confidence), ids, outcome);
      if order !in records { records := records[order := Report(outcome, |ids|)]; }
    }
  }
}
