/** Python's sorted(..., key=..., reverse=True): descending by score, equal scores in their original order. */
module Ranking {
  import opened Collections

  /** `a` occurs before an occurrence of `b`. */
  ghost predicate Before<T>(s: seq<T>, a: T, b: T) {
    exists i, j :: 0 <= i < j < |s| && s[i] == a && s[j] == b
  }

  /** How two elements of `s` compare: by score, and by position in `s` when the scores are equal. */
  ghost predicate Precedes<T>(s: seq<T>, score: T -> real, a: T, b: T) {
    score(a) > score(b) || (score(a) == score(b) && Before(s, a, b))
  }

  /** `out` holds the elements of `s`, ordered by Precedes. */
  ghost predicate IsRanking<T>(s: seq<T>, score: T -> real, out: seq<T>) {
    && multiset(out) == multiset(s)
    && forall i, j :: 0 <= i < j < |out| ==> Precedes(s, score, out[i], out[j])
  }

  function Insert<T>(x: T, s: seq<T>, score: T -> real): seq<T> {
    if s == [] || score(x) >= score(s[0]) then [x] + s else [s[0]] + Insert(x, s[1..], score)
  }

  function SortDescending<T>(s: seq<T>, score: T -> real): seq<T> {
    if s == [] then [] else Insert(s[0], SortDescending(s[1..], score), score)
  }

  lemma {:induction false} InsertKeeps<T>(x: T, s: seq<T>, score: T -> real)
    ensures multiset(Insert(x, s, score)) == multiset(s) + multiset{x}
  {
    if s == [] || score(x) >= score(s[0]) {
    } else {
      InsertKeeps(x, s[1..], score);
      assert s == [s[0]] + s[1..];
    }
  }

  lemma {:induction false} SortKeeps<T>(s: seq<T>, score: T -> real)
    ensures multiset(SortDescending(s, score)) == multiset(s)
  {
    if s == [] {
    } else {
      SortKeeps(s[1..], score);
      InsertKeeps(s[0], SortDescending(s[1..], score), score);
      assert s == [s[0]] + s[1..];
    }
  }

  lemma MultisetMember<T>(a: seq<T>, b: seq<T>, x: T)
    requires multiset(a) == multiset(b) && x in a
    ensures x in b
  {
    assert x in multiset(a);
  }

  /** An inserted element goes after higher scores and before equal ones. */
  lemma {:induction false} InsertOrders<T>(x: T, s: seq<T>, score: T -> real, all: seq<T>)
    requires all != [] && all[0] == x
    requires forall i :: 0 <= i < |s| ==> s[i] in all[1..]
    requires forall i, j :: 0 <= i < j < |s| ==> Precedes(all, score, s[i], s[j])
    ensures forall i, j :: 0 <= i < j < |Insert(x, s, score)| ==>
              Precedes(all, score, Insert(x, s, score)[i], Insert(x, s, score)[j])
    decreases s
  {
    var out := Insert(x, s, score);
    if s == [] || score(x) >= score(s[0]) {
      forall j | 0 <= j < |s| ensures Precedes(all, score, x, s[j]) {
        var k :| 0 <= k < |all[1..]| && all[1..][k] == s[j];
        assert all[0] == x && all[k + 1] == s[j];
        assert j > 0 ==> Precedes(all, score, s[0], s[j]);
      }
    } else {
      InsertOrders(x, s[1..], score, all);
      var tail := Insert(x, s[1..], score);
      forall j | 0 <= j < |tail| ensures Precedes(all, score, s[0], tail[j]) {
        InsertKeeps(x, s[1..], score);
        assert tail[j] in multiset(tail);
        if tail[j] != x {
          assert tail[j] in multiset(s[1..]);
          var k :| 0 <= k < |s[1..]| && s[1..][k] == tail[j];
          assert Precedes(all, score, s[0], s[k + 1]);
        }
      }
    }
  }

  lemma PrecedesInLonger<T>(s: seq<T>, score: T -> real, a: T, b: T)
    requires s != [] && Precedes(s[1..], score, a, b)
    ensures Precedes(s, score, a, b)
  {
    if score(a) == score(b) {
      var i, j :| 0 <= i < j < |s[1..]| && s[1..][i] == a && s[1..][j] == b;
      assert s[i + 1] == a && s[j + 1] == b;
    }
  }

  /** Sorting gives a ranking. */
  lemma {:induction false} SortRanks<T>(s: seq<T>, score: T -> real)
    ensures IsRanking(s, score, SortDescending(s, score))
  {
    SortKeeps(s, score);
    if s != [] {
      var tail := SortDescending(s[1..], score);
      SortRanks(s[1..], score);
      forall i, j | 0 <= i < j < |tail| ensures Precedes(s, score, tail[i], tail[j]) {
        PrecedesInLonger(s, score, tail[i], tail[j]);
      }
      forall i | 0 <= i < |tail| ensures tail[i] in s[1..] { MultisetMember(tail, s[1..], tail[i]); }
      InsertOrders(s[0], tail, score, s);
    }
  }

  /** Only the scores of the elements themselves matter. */
  lemma RankingCongruent<T>(s: seq<T>, f: T -> real, g: T -> real, out: seq<T>)
    requires IsRanking(s, f, out) && forall x :: x in s ==> f(x) == g(x)
    ensures IsRanking(s, g, out)
  {
    forall i | 0 <= i < |out| ensures out[i] in s { MultisetMember(out, s, out[i]); }
  }

  /** A ranking of distinct elements repeats none. */
  lemma DistinctByMultiset<T>(a: seq<T>, b: seq<T>)
    requires multiset(a) == multiset(b) && Distinct(a)
    ensures Distinct(b)
  {
    forall x | x in b ensures multiset(b)[x] <= 1 { CountDistinct(a, x); }
    forall i, j | 0 <= i < j < |b| ensures b[i] != b[j] {
      assert b[i] in b;
      if b[i] == b[j] { CountTwice(b, i, j); }
    }
  }

  lemma {:induction false} CountDistinct<T>(a: seq<T>, x: T)
    requires Distinct(a)
    ensures multiset(a)[x] <= 1
  {
    if a == [] {
    } else {
      CountDistinct(a[1..], x);
      assert a == [a[0]] + a[1..];
      if x == a[0] { assert x !in a[1..]; assert x !in multiset(a[1..]); }
    }
  }

  lemma CountTwice<T>(b: seq<T>, i: nat, j: nat)
    requires i < j < |b| && b[i] == b[j]
    ensures multiset(b)[b[i]] >= 2
  {
    assert b == b[..i] + [b[i]] + b[i + 1..j] + [b[j]] + b[j + 1..];
  }

  lemma DistinctSameMembers<T>(a: seq<T>, b: seq<T>)
    requires Distinct(a) && Distinct(b) && forall x :: x in a <==> x in b
    ensures multiset(a) == multiset(b)
  {
    forall x ensures multiset(a)[x] == multiset(b)[x] {
      CountDistinct(a, x);
      CountDistinct(b, x);
      assert x in multiset(a) <==> x in a;
      assert x in multiset(b) <==> x in b;
    }
  }

  // ---- The scores of a ranking ----

  function Scores<T>(s: seq<T>, score: T -> real): seq<real> {
    seq(|s|, i requires 0 <= i < |s| => score(s[i]))
  }

  function Without<T>(s: seq<T>, p: nat): seq<T>
    requires p < |s|
  {
    s[..p] + s[p + 1..]
  }

  lemma MultisetWithout<T>(s: seq<T>, p: nat)
    requires p < |s|
    ensures multiset(Without(s, p)) == multiset(s) - multiset{s[p]}
  {
    assert s == s[..p] + [s[p]] + s[p + 1..];
  }

  lemma ScoresWithout<T>(s: seq<T>, score: T -> real, p: nat)
    requires p < |s|
    ensures Scores(Without(s, p), score) == Without(Scores(s, score), p)
  {
  }

  lemma ScoresSplit<T>(s: seq<T>, score: T -> real, p: nat)
    requires p < |s|
    ensures multiset(Scores(s, score)) == multiset(Scores(Without(s, p), score)) + multiset{score(s[p])}
  {
    ScoresWithout(s, score, p);
    MultisetWithout(Scores(s, score), p);
    assert Scores(s, score)[p] in multiset(Scores(s, score));
  }

  lemma {:induction false} ScoresKeepMultiset<T>(a: seq<T>, b: seq<T>, score: T -> real)
    requires multiset(a) == multiset(b)
    ensures multiset(Scores(a, score)) == multiset(Scores(b, score))
    decreases |a|
  {
    if a == [] {
      assert |multiset(b)| == 0;
    } else {
      MultisetMember(a, b, a[0]);
      var p :| 0 <= p < |b| && b[p] == a[0];
      MultisetWithout(a, 0);
      MultisetWithout(b, p);
      ScoresKeepMultiset(Without(a, 0), Without(b, p), score);
      ScoresSplit(a, score, 0);
      ScoresSplit(b, score, p);
    }
  }

  ghost predicate NonIncreasing(s: seq<real>) {
    forall i, j :: 0 <= i < j < |s| ==> s[i] >= s[j]
  }

  lemma MaxFirst(a: seq<real>, b: seq<real>)
    requires NonIncreasing(a) && a != [] && b != [] && multiset(a) == multiset(b)
    ensures a[0] >= b[0]
  {
    MultisetMember(b, a, b[0]);
  }

  lemma TailMultisets(a: seq<real>, b: seq<real>)
    requires a != [] && b != [] && a[0] == b[0] && multiset(a) == multiset(b)
    ensures multiset(a[1..]) == multiset(b[1..])
  {
    MultisetWithout(a, 0);
    MultisetWithout(b, 0);
    assert Without(a, 0) == a[1..] && Without(b, 0) == b[1..];
  }

  lemma SameHeads(a: seq<real>, b: seq<real>)
    requires multiset(a) == multiset(b) && NonIncreasing(a) && NonIncreasing(b) && a != []
    ensures b != [] && a[0] == b[0]
  {
    MultisetMember(a, b, a[0]);
    MaxFirst(a, b);
    MaxFirst(b, a);
  }

  lemma {:induction false} NonIncreasingUnique(a: seq<real>, b: seq<real>)
    requires multiset(a) == multiset(b) && NonIncreasing(a) && NonIncreasing(b)
    ensures a == b
    decreases |a|
  {
    if a == [] {
      assert |multiset(b)| == 0;
    } else {
      SameHeads(a, b);
      TailMultisets(a, b);
      NonIncreasingUnique(a[1..], b[1..]);
      SameFromParts(a, b);
    }
  }

  lemma SameFromParts<T>(a: seq<T>, b: seq<T>)
    requires a != [] && b != [] && a[0] == b[0] && a[1..] == b[1..]
    ensures a == b
  {
    assert a == [a[0]] + a[1..] && b == [b[0]] + b[1..];
  }

  lemma RankingDescends<T>(s: seq<T>, score: T -> real, out: seq<T>)
    requires IsRanking(s, score, out)
    ensures NonIncreasing(Scores(out, score))
  {
    forall i, j | 0 <= i < j < |out| ensures score(out[i]) >= score(out[j]) {
      assert Precedes(s, score, out[i], out[j]);
    }
  }

  /** Rankings of the same elements show the same scores in the same order. */
  lemma SameScores<T>(s: seq<T>, t: seq<T>, score: T -> real, out: seq<T>, out': seq<T>)
    requires multiset(s) == multiset(t) && IsRanking(s, score, out) && IsRanking(t, score, out')
    ensures Scores(out, score) == Scores(out', score)
  {
    ScoresKeepMultiset(out, out', score);
    RankingDescends(s, score, out);
    RankingDescends(t, score, out');
    NonIncreasingUnique(Scores(out, score), Scores(out', score));
  }

  /** In a ranking of distinct elements, `a` stands before `b` exactly when it precedes it. */
  lemma RankingOrder<T>(s: seq<T>, score: T -> real, out: seq<T>, a: T, b: T)
    requires Distinct(s) && IsRanking(s, score, out) && a in s && b in s && a != b
    ensures Before(out, a, b) <==> Precedes(s, score, a, b)
  {
    MultisetMember(s, out, a);
    MultisetMember(s, out, b);
    DistinctByMultiset(s, out);
    var i :| 0 <= i < |out| && out[i] == a;
    var j :| 0 <= j < |out| && out[j] == b;
    if i < j {
      assert Precedes(s, score, out[i], out[j]);
    } else {
      assert Precedes(s, score, out[j], out[i]);
      NotBothBefore(s, a, b);
      NotBothBefore(out, a, b);
      assert Before(out, b, a);
    }
  }

  lemma NotBothBefore<T>(s: seq<T>, a: T, b: T)
    requires Distinct(s)
    ensures !(Before(s, a, b) && Before(s, b, a))
  {
  }
}
