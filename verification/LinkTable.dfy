/** The table of similar memories (`_upsert_memory_links` in src/qortia/links.py and its cleanup). */
module LinkTable {
  import opened Wrappers
  import opened StoreModel

  const LINK_SIMILARITY_THRESHOLD := 0.70
  const LINK_TOP_N := 3

  datatype Similar = Similar(id: Id, similarity: real)

  /** INSERT .. ON CONFLICT DO NOTHING. */
  function InsertIfAbsent(links: Links, source: Id, target: Id, similarity: real): Links {
    if (source, target) in links then links else links[(source, target) := similarity]
  }

  /** The table after both directions of the first `n` pairs. */
  function Linked(links: Links, m: Id, similar: seq<Similar>, n: nat): Links
    requires n <= |similar|
  {
    if n == 0 then links
    else
      var x := similar[n - 1];
      InsertIfAbsent(InsertIfAbsent(Linked(links, m, similar, n - 1), m, x.id, x.similarity), x.id, m, x.similarity)
  }

  /**
   * The rows the similarity query may return: live, unexpired and valid long-term memories of the
   * same agent, itself excluded.
   */
  ghost predicate IsSimilar(rows: Memories, m: Id, now: Time, similar: seq<Similar>) {
    && |similar| <= LINK_TOP_N && m in rows
    && forall i :: 0 <= i < |similar| ==>
         && similar[i].id in rows && similar[i].id != m && similar[i].similarity >= LINK_SIMILARITY_THRESHOLD
         && rows[similar[i].id].agent == rows[m].agent && rows[similar[i].id].kind != ShortTerm
         && rows[similar[i].id].active
         && (rows[similar[i].id].expiresAt == None || rows[similar[i].id].expiresAt.value > now)
         && (rows[similar[i].id].validUntil == None || rows[similar[i].id].validUntil.value > now)
  }

  /** DELETE of every link that starts or ends at `m`. */
  function Unlinked(links: Links, m: Id): Links {
    map p | p in links && p.0 != m && p.1 != m :: links[p]
  }

  /** Links come in pairs of equal similarity, above the threshold, and none leads to its own source. */
  ghost predicate Symmetric(links: Links) {
    forall x, y :: (x, y) in links ==>
      x != y && (y, x) in links && links[(y, x)] == links[(x, y)] && links[(x, y)] >= LINK_SIMILARITY_THRESHOLD
  }

  lemma LinkPairKeeps(links: Links, m: Id, x: Id, similarity: real)
    requires Symmetric(links) && x != m && similarity >= LINK_SIMILARITY_THRESHOLD
    ensures Symmetric(InsertIfAbsent(InsertIfAbsent(links, m, x, similarity), x, m, similarity))
  {
    var after := InsertIfAbsent(InsertIfAbsent(links, m, x, similarity), x, m, similarity);
    forall a, b | (a, b) in after
      ensures a != b && (b, a) in after && after[(b, a)] == after[(a, b)] && after[(a, b)] >= LINK_SIMILARITY_THRESHOLD
    {
      assert (m, x) in links <==> (x, m) in links;
      if (a, b) in links { assert (b, a) in links; }
    }
  }

  lemma {:induction false} LinkedKeeps(links: Links, m: Id, similar: seq<Similar>, n: nat)
    requires n <= |similar| && Symmetric(links)
    requires forall i :: 0 <= i < |similar| ==> similar[i].id != m && similar[i].similarity >= LINK_SIMILARITY_THRESHOLD
    ensures Symmetric(Linked(links, m, similar, n))
  {
    if n == 0 {
    } else {
      LinkedKeeps(links, m, similar, n - 1);
      LinkPairKeeps(Linked(links, m, similar, n - 1), m, similar[n - 1].id, similar[n - 1].similarity);
    }
  }

  /** Existing links are never changed; every requested pair is linked afterwards; nothing else is added. */
  lemma {:induction false} LinkedPairs(links: Links, m: Id, similar: seq<Similar>, n: nat, p: (Id, Id))
    requires n <= |similar|
    ensures p in links ==> p in Linked(links, m, similar, n) && Linked(links, m, similar, n)[p] == links[p]
    ensures p in Linked(links, m, similar, n) <==>
            p in links || exists i :: 0 <= i < n && (p == (m, similar[i].id) || p == (similar[i].id, m))
  {
    if n == 0 {
    } else {
      LinkedPairs(links, m, similar, n - 1, p);
    }
  }

  lemma UnlinkedKeeps(links: Links, m: Id)
    requires Symmetric(links)
    ensures Symmetric(Unlinked(links, m))
    ensures forall x, y :: (x, y) in Unlinked(links, m) <==> (x, y) in links && x != m && y != m
    ensures forall p :: p in Unlinked(links, m) ==> Unlinked(links, m)[p] == links[p]
  {
    forall x, y | (x, y) in Unlinked(links, m)
      ensures (y, x) in Unlinked(links, m) && Unlinked(links, m)[(y, x)] == Unlinked(links, m)[(x, y)]
    {
      assert (y, x) in links;
    }
  }

  ghost predicate NamedInLinks(links: Links, m: Id) {
    exists x, y :: (x, y) in links && (x == m || y == m)
  }

  /** `p` is one of the two directions of the pair. */
  predicate IsPair(p: (Id, Id), m: Id, x: Id) {
    p == (m, x) || p == (x, m)
  }

  /** A new link carries the similarity found for its pair, the first one if the pair came twice. */
  lemma {:induction false} LinkedSimilarity(links: Links, m: Id, similar: seq<Similar>, n: nat, p: (Id, Id))
    returns (i: nat)
    requires n <= |similar| && p !in links && p in Linked(links, m, similar, n)
    ensures i < n && IsPair(p, m, similar[i].id) && Linked(links, m, similar, n)[p] == similar[i].similarity
    ensures forall j :: 0 <= j < i ==> !IsPair(p, m, similar[j].id)
  {
    if p in Linked(links, m, similar, n - 1) {
      i := LinkedSimilarity(links, m, similar, n - 1, p);
    } else {
      i := n - 1;
      LinkedPairs(links, m, similar, n - 1, p);
    }
  }
}
