/**
 * Reordering the results by the index list of a language model (src/qortia/recall_rerank.py).
 * The list is arbitrary: indices may repeat, be missing or be out of range.
 */
module Rerank {
  import opened Wrappers
  import opened Results
  import opened Collections
  import opened Ranking

  function IsIndex(n: nat): int -> bool {
    (i: int) => 1 <= i <= n
  }

  lemma InRangeMembers(order: seq<int>, n: nat)
    ensures forall i :: i in Filter(order, IsIndex(n)) <==> i in order && 1 <= i <= n
  {
    forall i ensures i in Filter(order, IsIndex(n)) <==> i in order && 1 <= i <= n {
      FilterMembers(order, IsIndex(n), i);
    }
  }

  /** The indices that name a result, counted from one. */
  function InRange(order: seq<int>, n: nat): (valid: seq<int>)
    ensures forall i :: i in valid ==> 1 <= i <= n
  {
    InRangeMembers(order, n);
    Filter(order, IsIndex(n))
  }

  function Pick(results: seq<RecallResult>, indices: seq<int>): seq<RecallResult>
    requires forall i :: i in indices ==> 1 <= i <= |results|
  {
    seq(|indices|, i requires 0 <= i < |indices| => assert indices[i] in indices; results[indices[i] - 1])
  }

  function IsUnseen(seen: set<Id>): RecallResult -> bool {
    (r: RecallResult) => r.id !in seen
  }

  /** The results whose id is not among `seen`. */
  function Unseen(results: seq<RecallResult>, seen: set<Id>): seq<RecallResult> {
    Filter(results, IsUnseen(seen))
  }

  /** `order` is None when no model is configured, the call failed, or the reply is no list of numbers. */
  function LlmRerank(results: seq<RecallResult>, order: Option<seq<int>>): seq<RecallResult> {
    if results == [] || order == None then results
    else
      var picked := Pick(results, InRange(order.value, |results|));
      picked + Unseen(results, IdsOf(picked))
  }

  lemma UnseenMembers(results: seq<RecallResult>, seen: set<Id>)
    ensures forall r :: r in Unseen(results, seen) <==> r in results && r.id !in seen
    ensures Distinct(results) ==> Distinct(Unseen(results, seen))
  {
    forall r ensures r in Unseen(results, seen) <==> r in results && r.id !in seen {
      FilterMembers(results, IsUnseen(seen), r);
    }
    if Distinct(results) { FilterKeepsDistinct(results, IsUnseen(seen)); }
  }

  /** Whatever the list, the reranked results are results, and no id is lost. */
  lemma RerankKeepsIds(results: seq<RecallResult>, order: Option<seq<int>>)
    ensures forall r :: r in LlmRerank(results, order) ==> r in results
    ensures IdsOf(LlmRerank(results, order)) == IdsOf(results)
  {
    if results != [] && order.Some? {
      var picked := Pick(results, InRange(order.value, |results|));
      UnseenMembers(results, IdsOf(picked));
      forall r | r in picked ensures r in results {
        var i :| 0 <= i < |picked| && picked[i] == r;
        assert InRange(order.value, |results|)[i] in InRange(order.value, |results|);
      }
      forall r | r in results ensures r.id in IdsOf(LlmRerank(results, order)) {
        if r.id !in IdsOf(picked) { assert r in Unseen(results, IdsOf(picked)); }
      }
    }
  }

  lemma PickDistinct(results: seq<RecallResult>, indices: seq<int>)
    requires forall i :: i in indices ==> 1 <= i <= |results|
    requires Distinct(results) && Distinct(indices)
    ensures Distinct(Pick(results, indices))
  {
    var picked := Pick(results, indices);
    forall i, j | 0 <= i < j < |picked| ensures picked[i] != picked[j] {
      assert indices[i] in indices && indices[j] in indices && indices[i] != indices[j];
    }
  }

  lemma DistinctConcat<T>(a: seq<T>, b: seq<T>)
    requires Distinct(a) && Distinct(b) && forall x :: x in a ==> x !in b
    ensures Distinct(a + b)
  {
    forall i, j | 0 <= i < j < |a + b| ensures (a + b)[i] != (a + b)[j] {
      if i < |a| && j >= |a| { assert a[i] in a && b[j - |a|] in b; }
    }
  }

  lemma DistinctIds(results: seq<RecallResult>)
    requires Distinct(Ids(results))
    ensures Distinct(results)
  {
    forall i, j | 0 <= i < j < |results| ensures results[i] != results[j] {
      assert Ids(results)[i] != Ids(results)[j];
    }
  }

  lemma RepeatInFront<T>(a: seq<T>, b: seq<T>)
    requires !Distinct(a)
    ensures !Distinct(a + b)
  {
    var i, j :| 0 <= i < j < |a| && a[i] == a[j];
    assert (a + b)[i] == (a + b)[j];
  }

  lemma PickRepeats(results: seq<RecallResult>, indices: seq<int>)
    requires (forall i :: i in indices ==> 1 <= i <= |results|) && !Distinct(indices)
    ensures !Distinct(Pick(results, indices))
  {
    var i, j :| 0 <= i < j < |indices| && indices[i] == indices[j];
    assert Pick(results, indices)[i] == Pick(results, indices)[j];
  }

  lemma PickMembers(results: seq<RecallResult>, indices: seq<int>, r: RecallResult)
    requires forall i :: i in indices ==> 1 <= i <= |results|
    ensures r in Pick(results, indices) <==> exists i :: i in indices && results[i - 1] == r
  {
    var picked := Pick(results, indices);
    if r in picked {
      var p :| 0 <= p < |picked| && picked[p] == r;
      assert indices[p] in indices && results[indices[p] - 1] == r;
    }
    if i :| i in indices && results[i - 1] == r {
      var p :| 0 <= p < |indices| && indices[p] == i;
      assert picked[p] == r;
    }
  }

  /** No result that the list leaves out shares its id with one that it names. */
  ghost predicate NoTwinLeftOut(results: seq<RecallResult>, indices: seq<int>)
    requires forall i :: i in indices ==> 1 <= i <= |results|
  {
    forall i :: 1 <= i <= |results| && i !in indices ==> results[i - 1].id !in IdsOf(Pick(results, indices))
  }

  lemma ReorderingRepeatsNothing(results: seq<RecallResult>, order: seq<int>)
    requires results != [] && Distinct(results)
    requires multiset(LlmRerank(results, Some(order))) == multiset(results)
    ensures Distinct(InRange(order, |results|))
  {
    var valid, out := InRange(order, |results|), LlmRerank(results, Some(order));
    DistinctByMultiset(results, out);
    if !Distinct(valid) {
      PickRepeats(results, valid);
      RepeatInFront(Pick(results, valid), Unseen(results, IdsOf(Pick(results, valid))));
    }
  }

  lemma ReorderingDropsNothing(results: seq<RecallResult>, order: seq<int>, i: int)
    requires results != [] && Distinct(results) && 1 <= i <= |results| && i !in InRange(order, |results|)
    requires results[i - 1] in LlmRerank(results, Some(order))
    ensures results[i - 1].id !in IdsOf(Pick(results, InRange(order, |results|)))
  {
    var valid := InRange(order, |results|);
    UnseenMembers(results, IdsOf(Pick(results, valid)));
    PickMembers(results, valid, results[i - 1]);
  }

  lemma ReorderingLeavesNoTwin(results: seq<RecallResult>, order: seq<int>)
    requires results != [] && Distinct(results)
    requires multiset(LlmRerank(results, Some(order))) == multiset(results)
    ensures NoTwinLeftOut(results, InRange(order, |results|))
  {
    forall i | 1 <= i <= |results| && i !in InRange(order, |results|)
      ensures results[i - 1].id !in IdsOf(Pick(results, InRange(order, |results|)))
    {
      MultisetMember(results, LlmRerank(results, Some(order)), results[i - 1]);
      ReorderingDropsNothing(results, order, i);
    }
  }

  lemma CleanIsReordering(results: seq<RecallResult>, order: seq<int>)
    requires results != [] && Distinct(results)
    requires Distinct(InRange(order, |results|)) && NoTwinLeftOut(results, InRange(order, |results|))
    ensures multiset(LlmRerank(results, Some(order))) == multiset(results)
  {
    var valid, out := InRange(order, |results|), LlmRerank(results, Some(order));
    var picked := Pick(results, valid);
    UnseenMembers(results, IdsOf(picked));
    PickDistinct(results, valid);
    DistinctConcat(picked, Unseen(results, IdsOf(picked)));
    RerankKeepsIds(results, Some(order));
    forall r | r in results ensures r in out {
      var i :| 0 <= i < |results| && results[i] == r;
      PickMembers(results, valid, r);
      if i + 1 in valid { assert results[i + 1 - 1] == r; } else { assert results[i + 1 - 1].id !in IdsOf(picked); }
    }
    DistinctSameMembers(out, results);
  }

  /**
   * Reranking is a reordering exactly when no index within range is repeated, and no result left out
   * of the list has the id of one in it: such a twin is dropped.
   */
  lemma RerankIsPermutationIff(results: seq<RecallResult>, order: seq<int>)
    requires results != [] && Distinct(results)
    ensures multiset(LlmRerank(results, Some(order))) == multiset(results) <==>
            Distinct(InRange(order, |results|)) && NoTwinLeftOut(results, InRange(order, |results|))
  {
    if multiset(LlmRerank(results, Some(order))) == multiset(results) {
      ReorderingRepeatsNothing(results, order);
      ReorderingLeavesNoTwin(results, order);
    } else if Distinct(InRange(order, |results|)) && NoTwinLeftOut(results, InRange(order, |results|)) {
      CleanIsReordering(results, order);
    }
  }

  lemma TwinIsNamed(results: seq<RecallResult>, indices: seq<int>, i: int, p: RecallResult)
    requires forall j :: j in indices ==> 1 <= j <= |results|
    requires Distinct(Ids(results)) && 1 <= i <= |results| && p in Pick(results, indices) && p.id == results[i - 1].id
    ensures i in indices
  {
    PickMembers(results, indices, p);
    var j :| j in indices && results[j - 1] == p;
    assert Ids(results)[i - 1] == Ids(results)[j - 1];
  }

  lemma NoTwins(results: seq<RecallResult>, indices: seq<int>)
    requires (forall j :: j in indices ==> 1 <= j <= |results|) && Distinct(Ids(results))
    ensures NoTwinLeftOut(results, indices)
  {
    forall i | 1 <= i <= |results| && i !in indices ensures results[i - 1].id !in IdsOf(Pick(results, indices)) {
      if p :| p in Pick(results, indices) && p.id == results[i - 1].id { TwinIsNamed(results, indices, i, p); }
    }
  }

  /** Where all ids differ, repeated indices are all there is to look for. */
  lemma DistinctIdsPermuteIff(results: seq<RecallResult>, order: seq<int>)
    requires results != [] && Distinct(Ids(results))
    ensures multiset(LlmRerank(results, Some(order))) == multiset(results) <==> Distinct(InRange(order, |results|))
  {
    DistinctIds(results);
    NoTwins(results, InRange(order, |results|));
    RerankIsPermutationIff(results, order);
  }

  /** A list without repeats that still loses a result: the second has the id of the first and is not named. */
  lemma TwinIsDropped(a: RecallResult, b: RecallResult)
    requires a.id == b.id && a != b
    ensures LlmRerank([a, b], Some([1])) == [a] && Distinct(InRange([1], 2))
  {
    assert [1][..0] == [] && Filter([1][..0], IsIndex(2)) == [];
    assert InRange([1], 2) == [1];
    var picked := Pick([a, b], [1]);
    assert picked == [a] && a.id in IdsOf(picked);
    assert [a, b][..1] == [a] && [a][..0] == [];
    assert Filter([a], IsUnseen(IdsOf(picked))) == [];
    assert Unseen([a, b], IdsOf(picked)) == [];
  }

  // ---- The order asked for ----

  /** The list names a result with this id. */
  ghost predicate NamesId(results: seq<RecallResult>, order: seq<int>, id: Id) {
    exists i :: i in order && 1 <= i <= |results| && results[i - 1].id == id
  }

  lemma PickedIds(results: seq<RecallResult>, order: seq<int>, id: Id)
    ensures id in IdsOf(Pick(results, InRange(order, |results|))) <==> NamesId(results, order, id)
  {
    var valid := InRange(order, |results|);
    InRangeMembers(order, |results|);
    if id in IdsOf(Pick(results, valid)) {
      var r :| r in Pick(results, valid) && r.id == id;
      PickMembers(results, valid, r);
    }
    if i :| i in order && 1 <= i <= |results| && results[i - 1].id == id {
      PickMembers(results, valid, results[i - 1]);
    }
  }

  /** The results that keep their place behind those named. */
  lemma OthersInOrder(results: seq<RecallResult>, order: seq<int>) returns (at: seq<nat>)
    ensures var others := Unseen(results, IdsOf(Pick(results, InRange(order, |results|))));
      && Increasing(at) && |at| == |others|
      && forall k :: 0 <= k < |at| ==> at[k] < |results| && others[k] == results[at[k]]
    ensures forall p: nat :: p in at <==> p < |results| && !NamesId(results, order, results[p].id)
  {
    at := FilterInOrder(results, IsUnseen(IdsOf(Pick(results, InRange(order, |results|)))));
    forall p: nat ensures p in at <==> p < |results| && !NamesId(results, order, results[p].id) {
      if p < |results| { PickedIds(results, order, results[p].id); }
    }
  }

  /** The results named, in the order asked for. */
  lemma NamedInOrder(results: seq<RecallResult>, order: seq<int>) returns (at: seq<nat>)
    ensures Increasing(at) && |at| == |Pick(results, InRange(order, |results|))|
    ensures forall p: nat :: p in at <==> p < |order| && 1 <= order[p] <= |results|
    ensures forall k :: 0 <= k < |at| ==> IsNamedAt(results, order, at[k], Pick(results, InRange(order, |results|))[k])
  {
    at := FilterInOrder(order, IsIndex(|results|));
    var valid := InRange(order, |results|);
    forall k | 0 <= k < |at| ensures IsNamedAt(results, order, at[k], Pick(results, valid)[k]) {
      assert at[k] in at && valid[k] == order[at[k]];
    }
  }

  /** `r` is the result that place `p` of the list asks for. */
  predicate IsNamedAt(results: seq<RecallResult>, order: seq<int>, p: nat, r: RecallResult) {
    p < |order| && 1 <= order[p] <= |results| && r == results[order[p] - 1]
  }

  /**
   * The results named come first, in the order asked for; then those whose id is not among them, in
   * their original order.
   */
  lemma RerankOrder(results: seq<RecallResult>, order: seq<int>)
    returns (named: seq<nat>, first: seq<RecallResult>, others: seq<nat>, rest: seq<RecallResult>)
    requires results != []
    ensures LlmRerank(results, Some(order)) == first + rest && |first| == |named| && |rest| == |others|
    ensures Increasing(named) && forall p: nat :: p in named <==> p < |order| && 1 <= order[p] <= |results|
    ensures forall k :: 0 <= k < |named| ==> IsNamedAt(results, order, named[k], first[k])
    ensures Increasing(others)
    ensures forall p: nat :: p in others <==> p < |results| && !NamesId(results, order, results[p].id)
    ensures forall k :: 0 <= k < |others| ==> others[k] < |results| && rest[k] == results[others[k]]
  {
    first := Pick(results, InRange(order, |results|));
    rest := Unseen(results, IdsOf(first));
    named := NamedInOrder(results, order);
    others := OthersInOrder(results, order);
  }
}
