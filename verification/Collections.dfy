/** Lists without repeats, and how many elements their sets have. */
module Collections {
  ghost predicate Distinct<T>(s: seq<T>) {
    forall i, j :: 0 <= i < j < |s| ==> s[i] != s[j]
  }

  ghost predicate Increasing(at: seq<nat>) {
    forall i, j :: 0 <= i < j < |at| ==> at[i] < at[j]
  }

  function ToSet(s: seq<nat>): set<nat> {
    set x | x in s
  }

  lemma {:induction false} ToSetCount(s: seq<nat>)
    ensures |ToSet(s)| <= |s|
    ensures Distinct(s) ==> |ToSet(s)| == |s|
  {
    if s == [] {
    } else {
      var n := |s| - 1;
      ToSetCount(s[..n]);
      assert s == s[..n] + [s[n]];
      assert ToSet(s) == ToSet(s[..n]) + {s[n]};
    }
  }

  lemma AddingCounts<T>(s: set<T>, x: T)
    ensures |s + {x}| == |s| + if x in s then 0 else 1
  {
    if x in s { assert s + {x} == s; }
  }

  lemma UnionAdds<T>(a: set<T>, b: set<T>)
    ensures |a + b| <= |a| + |b|
  {
  }

  lemma {:induction false} SubsetCount<T>(a: set<T>, b: set<T>)
    requires a <= b
    ensures |a| <= |b|
  {
    if a == {} {
    } else {
      var x :| x in a;
      SubsetCount(a - {x}, b - {x});
    }
  }

  /** One more place at the end. */
  lemma AppendPlace(at: seq<nat>, n: nat) returns (more: seq<nat>)
    requires Increasing(at) && forall i :: i in at ==> i < n
    ensures more == at + [n] && Increasing(more)
    ensures forall i :: i in more <==> i in at || i == n
  {
    more := at + [n];
    forall i | 0 <= i < |at| ensures at[i] < n { assert at[i] in at; }
  }

  // ---- Filtering ----

  /** The elements that pass, in their order. */
  function Filter<T>(s: seq<T>, keep: T -> bool): seq<T> {
    if s == [] then []
    else
      var n := |s| - 1;
      Filter(s[..n], keep) + if keep(s[n]) then [s[n]] else []
  }

  lemma {:induction false} FilterMembers<T>(s: seq<T>, keep: T -> bool, x: T)
    ensures x in Filter(s, keep) <==> x in s && keep(x)
  {
    if s == [] {
    } else {
      var n := |s| - 1;
      FilterMembers(s[..n], keep, x);
      assert x in s <==> x in s[..n] || x == s[n];
    }
  }

  /** `at` lists the places that pass, in order, and `out` the elements there. */
  ghost predicate IsFiltered<T>(s: seq<T>, keep: T -> bool, at: seq<nat>, out: seq<T>) {
    && Increasing(at) && |at| == |out|
    && (forall p: nat :: p in at <==> p < |s| && keep(s[p]))
    && (forall k :: 0 <= k < |at| ==> at[k] < |s| && out[k] == s[at[k]])
  }

  lemma FilteredSkips<T>(s: seq<T>, keep: T -> bool, at: seq<nat>, out: seq<T>)
    requires s != [] && !keep(s[|s| - 1]) && IsFiltered(s[..|s| - 1], keep, at, out)
    ensures IsFiltered(s, keep, at, out)
  {
    var n := |s| - 1;
    forall p: nat ensures p in at <==> p < |s| && keep(s[p]) {
      if p < n { assert s[..n][p] == s[p]; }
    }
    forall k | 0 <= k < |at| ensures at[k] < |s| && out[k] == s[at[k]] { assert s[..n][at[k]] == s[at[k]]; }
  }

  lemma FilteredGains<T>(s: seq<T>, keep: T -> bool, at: seq<nat>, out: seq<T>)
    requires s != [] && keep(s[|s| - 1]) && IsFiltered(s[..|s| - 1], keep, at, out)
    ensures IsFiltered(s, keep, at + [|s| - 1], out + [s[|s| - 1]])
  {
    var n := |s| - 1;
    var more := AppendPlace(at, n);
    forall p: nat ensures p in more <==> p < |s| && keep(s[p]) {
      if p < n { assert s[..n][p] == s[p]; }
    }
    forall k | 0 <= k < |more| ensures more[k] < |s| && (out + [s[n]])[k] == s[more[k]] {
      if k < |at| { assert s[..n][at[k]] == s[at[k]]; }
    }
  }

  /** A filtered list is the list at exactly the places that pass, in order. */
  lemma {:induction false} FilterInOrder<T>(s: seq<T>, keep: T -> bool) returns (at: seq<nat>)
    ensures IsFiltered(s, keep, at, Filter(s, keep))
  {
    if s == [] {
      at := [];
    } else {
      var n := |s| - 1;
      at := FilterInOrder(s[..n], keep);
      if keep(s[n]) {
        FilteredGains(s, keep, at, Filter(s[..n], keep));
        at := at + [n];
      } else {
        FilteredSkips(s, keep, at, Filter(s[..n], keep));
        assert Filter(s, keep) == Filter(s[..n], keep);
      }
    }
  }

  lemma FilterKeepsDistinct<T>(s: seq<T>, keep: T -> bool)
    requires Distinct(s)
    ensures Distinct(Filter(s, keep))
  {
    var at := FilterInOrder(s, keep);
  }
}
