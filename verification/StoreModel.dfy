/**
 * The tables of one tenant that the memory operations share (migrations/V1__initial_schema.sql):
 * private memories, agents, the entity index, the link table and the audit trail.
 */
module StoreModel {
  import opened Wrappers

  /** Row ids; gen_random_uuid() never repeats, which the operations ask of the ids they are given. */
  type Id = nat
  type AgentId = nat
  type Time = int

  datatype Kind = Episodic | Experiential | MentalModel | Decision | Lesson | ShortTerm

  /** An extracted entity with its type. */
  datatype Mention = Mention(text: string, kind: string)

  /** `hash` is the content hash column, here the content itself; rows written by reflection have none. */
  datatype Memory = Memory(
    agent: AgentId,
    kind: Kind,
    content: string,
    importance: real,
    consolidated: bool,
    validUntil: Option<Time>,
    active: bool,
    createdAt: Time,
    expiresAt: Option<Time>,
    hash: Option<string>,
    graphed: bool,
    mentions: seq<Mention>)

  datatype Agent = Agent(active: bool, counter: int)

  datatype EntityKey = EntityKey(agent: AgentId, text: string)

  datatype Entity = Entity(kind: string, linked: seq<Id>)

  datatype Operation = Remembered | Reflected | Forgotten

  datatype HistoryEntry = HistoryEntry(agent: AgentId, operation: Operation, target: Id, parent: Option<string>)

  type Memories = map<Id, Memory>

  type Index = map<EntityKey, Entity>

  /** The link table; a pair of ids occurs at most once. */
  type Links = map<(Id, Id), real>

  datatype State = State(
    rows: Memories,
    agents: map<AgentId, Agent>,
    index: Index,
    links: Links,
    history: seq<HistoryEntry>,
    clock: Time)

  datatype Error = Forbidden | NotFound | Aborted

  predicate IsKnowledge(kind: Kind) {
    kind == MentalModel || kind == Lesson
  }

  /** The consolidated rows of an agent. */
  function Consolidated(rows: Memories, a: AgentId): set<Id> {
    set id | id in rows && rows[id].agent == a && rows[id].consolidated
  }

  /** The ids the audit trail says were ever inserted; the trail is append-only. */
  function Issued(history: seq<HistoryEntry>): set<Id> {
    set e | e in history && e.operation != Forgotten :: e.target
  }

  lemma IssuedConcat(a: seq<HistoryEntry>, b: seq<HistoryEntry>)
    ensures Issued(a + b) == Issued(a) + Issued(b)
  {
  }
}
