/** The result record that the recall pipeline passes from stage to stage (src/qortia/models.py). */
module Results {
  import opened Wrappers

  type Id = nat

  datatype Scope = Private | Org | Knowledge

  /**
   * One recall result. `lastRecalledDays` counts whole days since the last recall; an empty
   * `embedding` means none is attached.
   */
  datatype RecallResult = RecallResult(
    id: Id,
    scope: Scope,
    content: string,
    importance: Option<real>,
    recallCount: nat,
    lastRecalledDays: Option<int>,
    confidence: real,
    score: real,
    embedding: seq<real>,
    linkedVia: Option<Id>,
    entitySummary: Option<string>)

  /** The ids in order. */
  function Ids(results: seq<RecallResult>): seq<Id> {
    seq(|results|, i requires 0 <= i < |results| => results[i].id)
  }

  function IdsOf(results: seq<RecallResult>): set<Id> {
    set r | r in results :: r.id
  }
}
