/**
 * The relational tables the core reads and writes, as abstract state.
 *
 * - `gamification_service.historico_xp`: the XP ledger, in insertion order.
 * - `user_service.funcionarios`: per user, the nullable `xp_total` and `nivel` columns.
 * - `gamification_service.funcionario_badges`: the grant relation, unique on (user, badge).
 * - `gamification_service.badges`: the badge catalog keyed by `codigo`.
 * - `events_store`: inbound events keyed by `event_id`.
 *
 * Facts owned by other services (completed enrollments, module activity days)
 * are read-only to the core and are passed in as `UserFacts`.
 */
module Store {
  import opened Wrappers

  datatype LedgerRow = LedgerRow(userId: string, delta: int, motivo: string, referenciaId: string)

  datatype UserRow = UserRow(xpTotal: Option<int>, nivel: Option<string>)

  /** A catalog row; the catalog map is keyed by its `codigo`. */
  datatype Badge = Badge(
    nome: string,
    descricao: Option<string>,
    criterio: Option<string>,
    iconeUrl: Option<string>,
    pontos: Option<int>)

  datatype Grant = Grant(userId: string, code: string)

  datatype StoredEvent = StoredEvent(eventType: string, occurredAt: string)

  /** All tables at one instant. */
  datatype Tables = Tables(
    ledger: seq<LedgerRow>,
    users: map<string, UserRow>,
    grants: set<Grant>,
    badges: map<string, Badge>,
    events: map<string, StoredEvent>)

  class Database {
    var ledger: seq<LedgerRow>
    var users: map<string, UserRow>
    var grants: set<Grant>
    var badges: map<string, Badge>
    var events: map<string, StoredEvent>

    function Snapshot(): Tables
      reads this
    {
      Tables(ledger, users, grants, badges, events)
    }
  }

  /** A completed enrollment (`status = 'CONCLUIDO'`) with what its course row says. */
  datatype Completion = Completion(department: Option<int>, category: Option<int>, completedMonth: Option<int>)

  /** What the progress and course services record about one user. */
  datatype UserFacts = UserFacts(completions: seq<Completion>, activityDays: set<int>)

  function FactsFor(facts: map<string, UserFacts>, userId: string): UserFacts {
    if userId in facts then facts[userId] else UserFacts([], {})
  }

  /** `Number(xp_total) || 0`: a missing user and a NULL total both read as 0. */
  function XpOf(users: map<string, UserRow>, userId: string): int {
    if userId in users && users[userId].xpTotal.Some? then users[userId].xpTotal.value else 0
  }

  /** Some ledger row, of any user, carries `referencia_id = key`. */
  predicate HasReference(ledger: seq<LedgerRow>, key: string) {
    exists i :: 0 <= i < |ledger| && ledger[i].referenciaId == key
  }

  /**
   * The idempotency invariant: every row with a nonzero delta was appended
   * while no earlier row carried its key.
   */
  predicate AppliedKeysFresh(ledger: seq<LedgerRow>) {
    forall i, j :: 0 <= i < j < |ledger| && ledger[j].delta != 0 ==> ledger[i].referenciaId != ledger[j].referenciaId
  }

  /** The sum of the deltas the ledger records for one user. */
  function LedgerSum(ledger: seq<LedgerRow>, userId: string): int
    decreases |ledger|
  {
    if |ledger| == 0 then 0
    else
      var last := ledger[|ledger| - 1];
      LedgerSum(ledger[..|ledger| - 1], userId) + (if last.userId == userId then last.delta else 0)
  }

  /** Under the invariant, at most one row with a nonzero delta exists per key. */
  lemma AtMostOneAppliedPerKey(ledger: seq<LedgerRow>, i: int, j: int)
    requires AppliedKeysFresh(ledger)
    requires 0 <= i < |ledger| && 0 <= j < |ledger|
    requires ledger[i].delta != 0 && ledger[j].delta != 0
    requires ledger[i].referenciaId == ledger[j].referenciaId
    ensures i == j
  {
  }

  /** Appending a row keeps the invariant when the row is a zero-XP row or its key is new. */
  lemma AppendKeepsKeysFresh(ledger: seq<LedgerRow>, row: LedgerRow)
    requires AppliedKeysFresh(ledger)
    requires row.delta == 0 || !HasReference(ledger, row.referenciaId)
    ensures AppliedKeysFresh(ledger + [row])
  {
    var l := ledger + [row];
    forall i, j | 0 <= i < j < |l| && l[j].delta != 0
      ensures l[i].referenciaId != l[j].referenciaId
    {
      if j == |ledger| {
        assert l[i] == ledger[i];
      }
    }
  }

  lemma LedgerSumAppend(ledger: seq<LedgerRow>, row: LedgerRow, userId: string)
    ensures LedgerSum(ledger + [row], userId) == LedgerSum(ledger, userId) + (if row.userId == userId then row.delta else 0)
  {
    assert (ledger + [row])[..|ledger|] == ledger;
  }
}
