/**
 * The one-to-one greedy matcher that scores extracted entities against gold spans
 * (evals/run_ner_eval.py). The matcher serves the predictions in turn, which fixes its matching
 * and makes it maximal: it counts at least half of what the best possible matching would, for any
 * match relation.
 */
module SpanMatching {
  import opened Collections

  datatype Prediction = Prediction(text: string, kind: string)
  datatype Gold = Gold(text: string, kind: string)

  /** Pairs predicted entities (by position) with gold entities (by position). */
  type Pairing = map<nat, nat>

  /** How gold types are named on the predicted side; other gold types match no predicted type. */
  predicate SameType(goldKind: string, predKind: string) {
    || (goldKind == "PER" && predKind == "PERSON")
    || (goldKind == "ORG" && predKind == "ORG")
    || (goldKind == "LOC" && predKind == "GPE")
  }

  ghost predicate OneToOne(m: Pairing) {
    forall p, q :: p in m && q in m && p != q ==> m[p] != m[q]
  }

  /** A one-to-one set of matching pairs. */
  ghost predicate Matching(preds: seq<Prediction>, gold: seq<Gold>, matches: (string, string) -> bool, m: Pairing) {
    && OneToOne(m)
    && forall p :: p in m ==> p < |preds| && m[p] < |gold| && matches(preds[p].text, gold[m[p]].text)
  }

  /** Every matching pair with a prediction below `bound` shares a side with `m`. */
  ghost predicate Maximal(preds: seq<Prediction>, gold: seq<Gold>, matches: (string, string) -> bool, m: Pairing,
                          bound: nat)
    requires bound <= |preds|
  {
    forall p, g :: 0 <= p < bound && 0 <= g < |gold| && matches(preds[p].text, gold[g].text) ==>
      p in m || g in m.Values
  }

  /** Gold entity `g` went to a prediction before `p`. */
  ghost predicate Taken(m: Pairing, p: nat, g: nat) {
    exists q :: q in m && q < p && m[q] == g
  }

  /** Prediction `p` has the first gold entity that matches its text and was still free, if there was one. */
  ghost predicate ServedInTurn(gold: seq<Gold>, matches: (string, string) -> bool, text: string, m: Pairing, p: nat) {
    forall g :: 0 <= g < |gold| && (p in m ==> g < m[p]) && matches(text, gold[g].text) ==> Taken(m, p, g)
  }

  /** The first `bound` predictions were served one after the other. */
  ghost predicate FirstServed(preds: seq<Prediction>, gold: seq<Gold>, matches: (string, string) -> bool, m: Pairing,
                              bound: nat)
    requires bound <= |preds|
  {
    forall p :: 0 <= p < bound ==> ServedInTurn(gold, matches, preds[p].text, m, p)
  }

  /** The matched predictions whose type agrees too. */
  function Typed(preds: seq<Prediction>, gold: seq<Gold>, m: Pairing): set<nat> {
    set p | p in m && p < |preds| && m[p] < |gold| && SameType(gold[m[p]].kind, preds[p].kind)
  }

  // ---- Counting ----

  lemma {:induction false} BelowCount(s: set<nat>, n: nat)
    requires forall i :: i in s ==> i < n
    ensures |s| <= n
  {
    if n > 0 {
      BelowCount(s - {n - 1}, n - 1);
      assert |s| <= |s - {n - 1}| + 1;
    } else {
      assert s == {};
    }
  }

  /** Predictions paired one-to-one with gold entities of `target` are no more than those. */
  lemma {:induction false} PairedCount(m: Pairing, preds: set<nat>, target: set<nat>)
    requires OneToOne(m) && preds <= m.Keys && forall p :: p in preds ==> m[p] in target
    ensures |preds| <= |target|
  {
    if preds == {} {
    } else {
      var p :| p in preds;
      PairedCount(m, preds - {p}, target - {m[p]});
    }
  }

  lemma {:induction false} ValuesCount(m: Pairing)
    ensures |m.Values| <= |m|
    decreases |m|
  {
    if m == map[] {
    } else {
      var p :| p in m;
      var rest := map q | q in m && q != p :: m[q];
      assert rest.Keys == m.Keys - {p};
      ValuesCount(rest);
      assert m.Values <= rest.Values + {m[p]} by {
        forall g | g in m.Values ensures g in rest.Values + {m[p]} {
          var q :| q in m && m[q] == g;
          if q != p { assert q in rest && rest[q] == g; }
        }
      }
      SubsetCount(m.Values, rest.Values + {m[p]});
    }
  }

  /** A matching uses each prediction and each gold entity at most once. */
  lemma MatchingCount(preds: seq<Prediction>, gold: seq<Gold>, matches: (string, string) -> bool, m: Pairing)
    requires Matching(preds, gold, matches, m)
    ensures |m| <= |preds| && |m| <= |gold|
    ensures |Typed(preds, gold, m)| <= |m|
  {
    BelowCount(m.Keys, |preds|);
    PairedCount(m, m.Keys, m.Values);
    BelowCount(m.Values, |gold|);
    SubsetCount(Typed(preds, gold, m), m.Keys);
  }

  /** A maximal matching has at least half as many pairs as any matching. */
  lemma MaximalIsHalf(preds: seq<Prediction>, gold: seq<Gold>, matches: (string, string) -> bool,
                      m: Pairing, best: Pairing)
    requires Matching(preds, gold, matches, m) && Maximal(preds, gold, matches, m, |preds|)
    requires Matching(preds, gold, matches, best)
    ensures |best| <= 2 * |m|
  {
    var left, right := best.Keys * m.Keys, best.Keys - m.Keys;
    SubsetCount(left, m.Keys);
    PairedCount(best, right, m.Values);
    ValuesCount(m);
    assert best.Keys == left + right;
  }

  /** Serving in turn leaves no pair to add. */
  lemma ServedIsMaximal(preds: seq<Prediction>, gold: seq<Gold>, matches: (string, string) -> bool, m: Pairing, n: nat)
    requires n <= |preds| && FirstServed(preds, gold, matches, m, n)
    ensures Maximal(preds, gold, matches, m, n)
  {
    forall p, g | 0 <= p < n && 0 <= g < |gold| && matches(preds[p].text, gold[g].text) && p !in m
      ensures g in m.Values
    {
      assert ServedInTurn(gold, matches, preds[p].text, m, p);
      assert Taken(m, p, g);
    }
  }

  /** A prediction that both matchings serve in turn gets the same in both, when all before it did. */
  lemma SameService(gold: seq<Gold>, matches: (string, string) -> bool, text: string, a: Pairing, b: Pairing, p: nat)
    requires OneToOne(a) && ServedInTurn(gold, matches, text, b, p)
    requires forall q: nat :: q < p ==> (q in a <==> q in b) && (q in a ==> a[q] == b[q])
    requires p in a && a[p] < |gold| && matches(text, gold[a[p]].text)
    ensures p in b && b[p] <= a[p]
  {
    assert !Taken(b, p, a[p]);
  }

  /** The order fixes the matching. */
  lemma {:induction false} ServedIsUnique(preds: seq<Prediction>, gold: seq<Gold>, matches: (string, string) -> bool,
                                          a: Pairing, b: Pairing, n: nat)
    requires n <= |preds| && Matching(preds, gold, matches, a) && Matching(preds, gold, matches, b)
    requires FirstServed(preds, gold, matches, a, n) && FirstServed(preds, gold, matches, b, n)
    ensures forall q: nat :: q < n ==> (q in a <==> q in b) && (q in a ==> a[q] == b[q])
    ensures n == |preds| ==> a == b
  {
    if n == 0 {
    } else {
      var p := n - 1;
      ServedIsUnique(preds, gold, matches, a, b, p);
      assert ServedInTurn(gold, matches, preds[p].text, a, p) && ServedInTurn(gold, matches, preds[p].text, b, p);
      if p in a { SameService(gold, matches, preds[p].text, a, b, p); }
      if p in b { SameService(gold, matches, preds[p].text, b, a, p); }
    }
  }

  /** Half is all that can be promised: here the matcher finds one pair where two are possible. */
  lemma HalfIsTight(matches: (string, string) -> bool)
    requires matches("ab", "a") && matches("ab", "b") && matches("a", "a") && !matches("a", "b")
    ensures var preds := [Prediction("ab", "ORG"), Prediction("a", "ORG")];
            var gold := [Gold("a", "ORG"), Gold("b", "ORG")];
            && Matching(preds, gold, matches, map[0 := 0])
            && FirstServed(preds, gold, matches, map[0 := 0], 2)
            && Matching(preds, gold, matches, map[0 := 1, 1 := 0])
  {
    var m: Pairing := map[0 := 0];
    assert 0 in m && m[0] == 0 && Taken(m, 1, 0);
  }

  // ---- The matcher ----

  /** The first unmatched gold entity that matches the predicted text; |gold| when there is none. */
  method FirstMatch(text: string, gold: seq<Gold>, matched: set<nat>, matches: (string, string) -> bool)
    returns (g: nat)
    ensures g <= |gold|
    ensures g < |gold| ==> g !in matched && matches(text, gold[g].text)
    ensures forall i :: 0 <= i < g ==> i in matched || !matches(text, gold[i].text)
  {
    for gi := 0 to |gold|
      invariant forall i :: 0 <= i < gi ==> i in matched || !matches(text, gold[i].text)
    {
      if gi in matched { continue; }
      if matches(text, gold[gi].text) { return gi; }
    }
    return |gold|;
  }

  lemma PairingGains(m: Pairing, p: nat, g: nat)
    requires p !in m
    ensures m[p := g].Values == m.Values + {g}
  {
    assert m[p := g][p] == g && forall q :: q in m ==> m[p := g][q] == m[q];
  }

  lemma PairingGrows(m: Pairing, p: nat, g: nat)
    requires p !in m
    ensures |m[p := g]| == |m| + 1
  {
    assert m[p := g].Keys == m.Keys + {p};
    assert |m[p := g].Keys| == |m.Keys| + 1;
  }

  lemma TypedExtends(preds: seq<Prediction>, gold: seq<Gold>, m: Pairing, p: nat, g: nat)
    requires p !in m && p < |preds| && g < |gold|
    ensures |Typed(preds, gold, m[p := g])| ==
            |Typed(preds, gold, m)| + if SameType(gold[g].kind, preds[p].kind) then 1 else 0
  {
    var t := Typed(preds, gold, m);
    assert p !in t;
    assert Typed(preds, gold, m[p := g]) == if SameType(gold[g].kind, preds[p].kind) then t + {p} else t;
  }

  /** Pairing an unmatched prediction with a free gold entity gives a matching. */
  lemma PairAdds(preds: seq<Prediction>, gold: seq<Gold>, matches: (string, string) -> bool, m: Pairing, p: nat, g: nat)
    requires Matching(preds, gold, matches, m)
    requires p < |preds| && g < |gold| && matches(preds[p].text, gold[g].text)
    requires p !in m && g !in m.Values
    ensures Matching(preds, gold, matches, m[p := g])
  {
    assert forall q :: q in m ==> m[q] in m.Values;
  }

  /** A prediction that comes later changes nothing for those served before it. */
  lemma EarlierStayServed(preds: seq<Prediction>, gold: seq<Gold>, matches: (string, string) -> bool,
                          m: Pairing, p: nat, g: nat)
    requires p < |preds| && p !in m && FirstServed(preds, gold, matches, m, p)
    ensures FirstServed(preds, gold, matches, m[p := g], p)
  {
    forall q | 0 <= q < p ensures ServedInTurn(gold, matches, preds[q].text, m[p := g], q) {
      assert ServedInTurn(gold, matches, preds[q].text, m, q);
      forall i | 0 <= i < |gold| && (q in m ==> i < m[q]) && matches(preds[q].text, gold[i].text)
        ensures Taken(m[p := g], q, i)
      {
        assert Taken(m, q, i);
        var r :| r in m && r < q && m[r] == i;
        assert r in m[p := g] && m[p := g][r] == i;
      }
    }
  }

  /** A gold entity matched so far was taken before prediction `p`. */
  lemma MatchedIsTaken(m: Pairing, p: nat, g: nat, h: nat)
    requires (forall i :: i in m ==> i < p) && g in m.Values
    ensures Taken(m, p, g) && Taken(m[p := h], p, g)
  {
    var q :| q in m && m[q] == g;
    assert q in m[p := h] && m[p := h][q] == g;
  }

  lemma NowServed(gold: seq<Gold>, matches: (string, string) -> bool, text: string, m: Pairing, p: nat, g: nat)
    requires (forall i :: i in m ==> i < p) && g <= |gold|
    requires forall i :: 0 <= i < g ==> i in m.Values || !matches(text, gold[i].text)
    ensures ServedInTurn(gold, matches, text, if g < |gold| then m[p := g] else m, p)
  {
    forall i | 0 <= i < g && matches(text, gold[i].text) ensures Taken(m, p, i) && Taken(m[p := g], p, i) {
      MatchedIsTaken(m, p, i, g);
    }
  }

  /** The counts of a matching that serves the predictions in turn. */
  ghost predicate CountsInTurn(preds: seq<Prediction>, gold: seq<Gold>, matches: (string, string) -> bool,
                               textTp: nat, typeTp: nat) {
    exists m :: Matching(preds, gold, matches, m) && FirstServed(preds, gold, matches, m, |preds|)
             && textTp == |m| && typeTp == |Typed(preds, gold, m)|
  }

  /** One example: each prediction takes the first gold entity that is still free and matches it. */
  method MatchExample(preds: seq<Prediction>, gold: seq<Gold>, matches: (string, string) -> bool)
    returns (textTp: nat, typeTp: nat, ghost m: Pairing)
    ensures CountsInTurn(preds, gold, matches, textTp, typeTp)
    ensures Matching(preds, gold, matches, m) && FirstServed(preds, gold, matches, m, |preds|)
    ensures textTp == |m| && typeTp == |Typed(preds, gold, m)|
  {
    textTp, typeTp, m := 0, 0, map[];
    var matched: set<nat> := {};
    assert Typed(preds, gold, m) == {};
    for p := 0 to |preds|
      invariant Matching(preds, gold, matches, m)
      invariant FirstServed(preds, gold, matches, m, p)
      invariant textTp == |m| && typeTp == |Typed(preds, gold, m)|
      invariant matched == m.Values
      invariant forall i :: i in m ==> i < p
    {
      var g := FirstMatch(preds[p].text, gold, matched, matches);
      NowServed(gold, matches, preds[p].text, m, p, g);
      if g < |gold| {
        PairAdds(preds, gold, matches, m, p, g);
        EarlierStayServed(preds, gold, matches, m, p, g);
        PairingGains(m, p, g);
        PairingGrows(m, p, g);
        TypedExtends(preds, gold, m, p, g);
        textTp := textTp + 1;
        if SameType(gold[g].kind, preds[p].kind) { typeTp := typeTp + 1; }
        matched, m := matched + {g}, m[p := g];
      }
    }
  }

  // ---- A whole language ----

  datatype Example = Example(gold: seq<Gold>, preds: seq<Prediction>)

  /** The counts of one language. */
  datatype Totals = Totals(textTp: nat, typeTp: nat, predicted: nat, gold: nat, zeroExtraction: nat)

  /** One matching for each of the first `n` examples. */
  ghost predicate AllMatchings(examples: seq<Example>, matches: (string, string) -> bool, ms: seq<Pairing>, n: nat)
    requires n <= |examples| && n <= |ms|
  {
    forall i :: 0 <= i < n ==> Matching(examples[i].preds, examples[i].gold, matches, ms[i])
  }

  ghost predicate AllServed(examples: seq<Example>, matches: (string, string) -> bool, ms: seq<Pairing>, n: nat)
    requires n <= |examples| && n <= |ms|
  {
    forall i :: 0 <= i < n ==> FirstServed(examples[i].preds, examples[i].gold, matches, ms[i], |examples[i].preds|)
  }

  /** What one example contributes, for the matching `m`. */
  ghost function Tally(e: Example, m: Pairing): Totals {
    Totals(|m|, |Typed(e.preds, e.gold, m)|, |e.preds|, |e.gold|, if e.gold != [] && e.preds == [] then 1 else 0)
  }

  function Plus(t: Totals, u: Totals): Totals {
    Totals(t.textTp + u.textTp, t.typeTp + u.typeTp, t.predicted + u.predicted, t.gold + u.gold,
           t.zeroExtraction + u.zeroExtraction)
  }

  /** The totals of the first `n` examples, for the matchings `ms`. */
  ghost function TotalsOf(examples: seq<Example>, ms: seq<Pairing>, n: nat): Totals
    requires n <= |examples| && n <= |ms|
  {
    if n == 0 then Totals(0, 0, 0, 0, 0)
    else Plus(TotalsOf(examples, ms, n - 1), Tally(examples[n - 1], ms[n - 1]))
  }

  /** The matcher finds at least half of what any one-to-one matching of every example could. */
  lemma {:induction false} HalfOfBest(examples: seq<Example>, matches: (string, string) -> bool,
                                      ms: seq<Pairing>, best: seq<Pairing>, n: nat)
    requires n <= |examples| && n <= |ms| && n <= |best|
    requires AllMatchings(examples, matches, ms, n) && AllServed(examples, matches, ms, n)
    requires AllMatchings(examples, matches, best, n)
    ensures TotalsOf(examples, best, n).textTp <= 2 * TotalsOf(examples, ms, n).textTp
    ensures TotalsOf(examples, best, n).gold == TotalsOf(examples, ms, n).gold
  {
    if n == 0 {
    } else {
      HalfOfBest(examples, matches, ms, best, n - 1);
      ServedIsMaximal(examples[n - 1].preds, examples[n - 1].gold, matches, ms[n - 1], |examples[n - 1].preds|);
      MaximalIsHalf(examples[n - 1].preds, examples[n - 1].gold, matches, ms[n - 1], best[n - 1]);
    }
  }

  /** Typed matches are matches, and no side is counted twice. */
  lemma {:induction false} TotalsAreOrdered(examples: seq<Example>, matches: (string, string) -> bool,
                                            ms: seq<Pairing>, n: nat)
    requires n <= |examples| && n <= |ms| && AllMatchings(examples, matches, ms, n)
    ensures var t := TotalsOf(examples, ms, n);
            t.typeTp <= t.textTp && t.textTp <= t.predicted && t.textTp <= t.gold && t.zeroExtraction <= n
  {
    if n == 0 {
    } else {
      TotalsAreOrdered(examples, matches, ms, n - 1);
      MatchingCount(examples[n - 1].preds, examples[n - 1].gold, matches, ms[n - 1]);
    }
  }

  lemma {:induction false} TotalsIgnoreLater(examples: seq<Example>, ms: seq<Pairing>, m: Pairing, n: nat)
    requires n <= |examples| && n <= |ms|
    ensures TotalsOf(examples, ms + [m], n) == TotalsOf(examples, ms, n)
  {
    if n == 0 {
    } else {
      TotalsIgnoreLater(examples, ms, m, n - 1);
    }
  }

  method CountExample(e: Example, matches: (string, string) -> bool) returns (t: Totals, ghost m: Pairing)
    ensures Matching(e.preds, e.gold, matches, m) && FirstServed(e.preds, e.gold, matches, m, |e.preds|)
    ensures t == Tally(e, m)
  {
    var textTp, typeTp;
    textTp, typeTp, m := MatchExample(e.preds, e.gold, matches);
    t := Totals(textTp, typeTp, |e.preds|, |e.gold|, if e.gold != [] && e.preds == [] then 1 else 0);
  }

  lemma MatchingsExtend(examples: seq<Example>, matches: (string, string) -> bool, ms: seq<Pairing>, m: Pairing, i: nat)
    requires i < |examples| && |ms| == i
    requires AllMatchings(examples, matches, ms, i) && AllServed(examples, matches, ms, i)
    requires Matching(examples[i].preds, examples[i].gold, matches, m)
    requires FirstServed(examples[i].preds, examples[i].gold, matches, m, |examples[i].preds|)
    ensures AllMatchings(examples, matches, ms + [m], i + 1) && AllServed(examples, matches, ms + [m], i + 1)
  {
  }

  lemma TotalsExtend(examples: seq<Example>, ms: seq<Pairing>, m: Pairing, i: nat)
    requires i < |examples| && |ms| == i
    ensures TotalsOf(examples, ms + [m], i + 1) == Plus(TotalsOf(examples, ms, i), Tally(examples[i], m))
  {
    TotalsIgnoreLater(examples, ms, m, i);
    assert (ms + [m])[i] == m;
  }

  /** All examples of a language, in order. */
  method CountLanguage(examples: seq<Example>, matches: (string, string) -> bool)
    returns (t: Totals, ghost ms: seq<Pairing>)
    ensures |ms| == |examples| && t == TotalsOf(examples, ms, |examples|)
    ensures AllMatchings(examples, matches, ms, |examples|) && AllServed(examples, matches, ms, |examples|)
  {
    t, ms := Totals(0, 0, 0, 0, 0), [];
    for i := 0 to |examples|
      invariant |ms| == i && t == TotalsOf(examples, ms, i)
      invariant AllMatchings(examples, matches, ms, i) && AllServed(examples, matches, ms, i)
    {
      var one;
      ghost var m;
      one, m := CountExample(examples[i], matches);
      MatchingsExtend(examples, matches, ms, m, i);
      TotalsExtend(examples, ms, m, i);
      t, ms := Plus(t, one), ms + [m];
    }
  }

  function Ratio(a: nat, b: nat): real {
    if b == 0 then 0.0 else a as real / b as real
  }

  /** The scores reported for a language. */
  datatype Report = Report(precision: real, recall: real, f1: real, typePrecision: real, zeroRate: real)

  function F1(p: real, r: real): real {
    if p + r == 0.0 then 0.0 else 2.0 * p * r / (p + r)
  }

  function ReportOf(t: Totals, examples: nat): Report {
    var p, r := Ratio(t.textTp, t.predicted), Ratio(t.textTp, t.gold);
    Report(p, r, F1(p, r), Ratio(t.typeTp, t.predicted),
           Ratio(t.zeroExtraction, examples))
  }

  lemma RatioOrder(a: nat, b: nat, c: nat)
    requires a <= b
    ensures 0.0 <= Ratio(a, c) <= Ratio(b, c)
    ensures b <= c ==> Ratio(b, c) <= 1.0
  {
    if c > 0 {
      var x, y, z := a as real, b as real, c as real;
      assert y / z - x / z == (y - x) / z;
      assert b <= c ==> y / z <= z / z;
    }
  }

  lemma HarmonicMean(p: real, r: real)
    requires 0.0 <= p && 0.0 <= r
    ensures p <= r ==> p <= F1(p, r) <= r
    ensures r <= p ==> r <= F1(p, r) <= p
  {
    if p + r > 0.0 {
      if p <= r { QuotientBetween(p, r, 2.0 * p * r, p + r); }
      if r <= p { QuotientBetween(r, p, 2.0 * p * r, p + r); }
    }
  }

  lemma QuotientBetween(lo: real, hi: real, x: real, y: real)
    requires 0.0 <= lo <= hi && y == lo + hi && y > 0.0 && x == 2.0 * lo * hi
    ensures lo <= x / y <= hi
  {
    assert lo * lo <= lo * hi && lo * hi <= hi * hi;
    assert lo * y == lo * lo + lo * hi && hi * y == hi * lo + hi * hi;
    assert lo * y <= x <= hi * y;
  }

  /**
   * The report of a language: every score is a proportion, the typed precision never exceeds
   * the untyped one, F1 lies between precision and recall, and the recall is at least half of
   * the recall of any one-to-one matching.
   */
  method ScoreLanguage(examples: seq<Example>, matches: (string, string) -> bool)
    returns (report: Report, ghost ms: seq<Pairing>)
    ensures |ms| == |examples| && report == ReportOf(TotalsOf(examples, ms, |examples|), |examples|)
    ensures AllMatchings(examples, matches, ms, |examples|) && AllServed(examples, matches, ms, |examples|)
    ensures 0.0 <= report.typePrecision <= report.precision <= 1.0
    ensures 0.0 <= report.recall <= 1.0 && 0.0 <= report.zeroRate <= 1.0
    ensures report.precision <= report.recall ==> report.precision <= report.f1 <= report.recall
    ensures report.recall <= report.precision ==> report.recall <= report.f1 <= report.precision
    ensures forall best :: |best| == |examples| && AllMatchings(examples, matches, best, |examples|) ==>
              ReportOf(TotalsOf(examples, best, |examples|), |examples|).recall <= 2.0 * report.recall
  {
    var t;
    t, ms := CountLanguage(examples, matches);
    report := ReportOf(t, |examples|);
    TotalsAreOrdered(examples, matches, ms, |examples|);
    ReportBounds(t, |examples|);
    forall best | |best| == |examples| && AllMatchings(examples, matches, best, |examples|)
      ensures ReportOf(TotalsOf(examples, best, |examples|), |examples|).recall <= 2.0 * report.recall
    {
      RecallIsHalf(examples, matches, ms, best);
    }
  }

  lemma ReportBounds(t: Totals, n: nat)
    requires t.typeTp <= t.textTp && t.textTp <= t.predicted && t.textTp <= t.gold && t.zeroExtraction <= n
    ensures var report := ReportOf(t, n);
      && 0.0 <= report.typePrecision <= report.precision <= 1.0
      && 0.0 <= report.recall <= 1.0 && 0.0 <= report.zeroRate <= 1.0
      && (report.precision <= report.recall ==> report.precision <= report.f1 <= report.recall)
      && (report.recall <= report.precision ==> report.recall <= report.f1 <= report.precision)
  {
    RatioOrder(t.typeTp, t.textTp, t.predicted);
    RatioOrder(t.textTp, t.textTp, t.gold);
    RatioOrder(t.zeroExtraction, t.zeroExtraction, n);
    HarmonicMean(Ratio(t.textTp, t.predicted), Ratio(t.textTp, t.gold));
  }

  lemma RecallIsHalf(examples: seq<Example>, matches: (string, string) -> bool, ms: seq<Pairing>, best: seq<Pairing>)
    requires |ms| == |best| == |examples|
    requires AllMatchings(examples, matches, ms, |examples|) && AllServed(examples, matches, ms, |examples|)
    requires AllMatchings(examples, matches, best, |examples|)
    ensures var n := |examples|;
            ReportOf(TotalsOf(examples, best, n), n).recall <= 2.0 * ReportOf(TotalsOf(examples, ms, n), n).recall
  {
    var t, u := TotalsOf(examples, ms, |examples|), TotalsOf(examples, best, |examples|);
    HalfOfBest(examples, matches, ms, best, |examples|);
    RatioOrder(u.textTp, 2 * t.textTp, t.gold);
    RatioDoubles(t.textTp, t.gold);
  }

  lemma RatioDoubles(a: nat, c: nat)
    ensures Ratio(2 * a, c) == 2.0 * Ratio(a, c)
  {
    assert (2 * a) as real == 2.0 * a as real;
  }

  // ---- What the numbers are ----

  /** Persons and organisations keep their type, places are geopolitical, and other gold types match nothing. */
  lemma TypesCorrespond(goldKind: string, predKind: string)
    ensures SameType("PER", predKind) <==> predKind == "PERSON"
    ensures SameType("ORG", predKind) <==> predKind == "ORG"
    ensures SameType("LOC", predKind) <==> predKind == "GPE"
    ensures goldKind !in {"PER", "ORG", "LOC"} ==> !SameType(goldKind, predKind)
  {
  }

  /** The scores, cleared of fractions; each is zero where its denominator is. */
  lemma ReportEquations(t: Totals, n: nat)
    ensures var r := ReportOf(t, n);
      && (t.predicted > 0 ==> r.precision * t.predicted as real == t.textTp as real)
      && (t.gold > 0 ==> r.recall * t.gold as real == t.textTp as real)
      && (t.predicted > 0 ==> r.typePrecision * t.predicted as real == t.typeTp as real)
      && (n > 0 ==> r.zeroRate * n as real == t.zeroExtraction as real)
      && (t.predicted == 0 ==> r.precision == 0.0 && r.typePrecision == 0.0) && (t.gold == 0 ==> r.recall == 0.0)
      && (n == 0 ==> r.zeroRate == 0.0)
      && r.f1 == F1(r.precision, r.recall)
  {
  }

  /** F1 is the harmonic mean: it vanishes with either score, and its product with their sum is twice their product. */
  lemma F1Equation(p: real, r: real, x: real)
    requires p >= 0.0 && r >= 0.0 && x == F1(p, r)
    ensures x * (p + r) == 2.0 * p * r
    ensures p == 0.0 || r == 0.0 ==> x == 0.0
    ensures p == r ==> x == p
  {
    if p == r { HarmonicMean(p, r); }
  }

  function AllPredictions(examples: seq<Example>): seq<Prediction> {
    if examples == [] then []
    else AllPredictions(examples[..|examples| - 1]) + examples[|examples| - 1].preds
  }

  function AllGold(examples: seq<Example>): seq<Gold> {
    if examples == [] then [] else AllGold(examples[..|examples| - 1]) + examples[|examples| - 1].gold
  }

  /** The examples with gold entities for which nothing was extracted. */
  function SilentFailures(examples: seq<Example>, n: nat): set<nat>
    requires n <= |examples|
  {
    set i | 0 <= i < n && |examples[i].gold| > 0 && |examples[i].preds| == 0
  }

  /** The totals count all predictions, all gold entities, and the silent failures. */
  lemma {:induction false} TotalsCountAll(examples: seq<Example>, ms: seq<Pairing>, n: nat)
    requires n <= |examples| && n <= |ms|
    ensures TotalsOf(examples, ms, n).predicted == |AllPredictions(examples[..n])|
    ensures TotalsOf(examples, ms, n).gold == |AllGold(examples[..n])|
    ensures TotalsOf(examples, ms, n).zeroExtraction == |SilentFailures(examples, n)|
  {
    if n == 0 {
      assert SilentFailures(examples, 0) == {};
    } else {
      TotalsCountAll(examples, ms, n - 1);
      assert examples[..n][..n - 1] == examples[..n - 1];
      SilentFailuresStep(examples, n - 1);
    }
  }

  lemma SilentFailuresStep(examples: seq<Example>, n: nat)
    requires n < |examples|
    ensures |SilentFailures(examples, n + 1)| ==
            |SilentFailures(examples, n)| + if examples[n].gold != [] && examples[n].preds == [] then 1 else 0
  {
    var before, after := SilentFailures(examples, n), SilentFailures(examples, n + 1);
    AddingCounts(before, n);
    if examples[n].gold != [] && examples[n].preds == [] {
      assert after == before + {n};
    } else {
      assert after == before;
    }
  }
}
