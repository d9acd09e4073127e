/**
 * `adjustXp` (src/services/perfilService.ts): the idempotent XP ledger.
 *
 * A call appends one row to `historico_xp` keyed by the source event id, adds
 * the delta to the user's `xp_total`, and when the new total is nonzero it
 * refreshes the stored level, pushes the total to the leaderboard cache
 * (failures are swallowed) and publishes `xp.adjusted.v1` (failures propagate).
 */
module Ledger {
  import opened Wrappers
  import opened Leveling
  import opened Store
  import opened Leaderboard

  /** The payload of `xp.adjusted.v1`. */
  datatype XpAdjusted = XpAdjusted(userId: string, delta: int, newTotalXp: int, level: string, sourceEventId: string)

  /** How a call ends: nothing published, published, or the publish threw. */
  datatype Outcome = Quiet | Published(event: XpAdjusted) | PublishFailed(event: XpAdjusted)

  /** `motivo || 'event'`: an absent or empty reason is stored as "event". */
  function MotivoOr(motivo: Option<string>): (m: string)
    ensures m == "event" || (motivo.Some? && m == motivo.value)
    ensures motivo.Some? && motivo.value != "" ==> m == motivo.value
  {
    if motivo.Some? && motivo.value != "" then motivo.value else "event"
  }

  /** The state after the first transaction, and the total it read back (`newTotal`). */
  datatype Recorded = Recorded(tables: Tables, newTotal: int)

  /**
   * The first transaction: nothing for a zero delta or an already used key;
   * otherwise the ledger row is appended and `xp_total = COALESCE(xp_total, 0) + delta`
   * is applied to the user's row, if there is one. The total read back is 0
   * when no row was updated.
   */
  function Record(t: Tables, userId: string, delta: int, key: string, motivo: Option<string>): Recorded {
    if delta == 0 || HasReference(t.ledger, key) then Recorded(t, 0)
    else
      var ledger := t.ledger + [LedgerRow(userId, delta, MotivoOr(motivo), key)];
      if userId in t.users then
        var row := t.users[userId];
        var total := row.xpTotal.GetOr(0) + delta;
        Recorded(t.(ledger := ledger, users := t.users[userId := row.(xpTotal := Some(total))]), total)
      else Recorded(t.(ledger := ledger), 0)
  }

  /** The level label for a total, as stored and published. */
  function LevelText(total: int): string {
    LabelText(NivelFromXp(total).nivelLabel)
  }

  /**
   * `UPDATE … SET nivel = $2 WHERE id = $1 AND nivel <> $2`: under SQL's NULL
   * semantics a NULL `nivel` fails the comparison and stays NULL.
   */
  function SetLevel(users: map<string, UserRow>, userId: string, level: string): map<string, UserRow> {
    if userId in users && users[userId].nivel.Some? && users[userId].nivel.value != level
    then users[userId := users[userId].(nivel := Some(level))]
    else users
  }

  /** All table changes of one call. */
  function AdjustTables(t: Tables, userId: string, delta: int, key: string, motivo: Option<string>): Tables {
    var r := Record(t, userId, delta, key, motivo);
    if r.newTotal != 0 then r.tables.(users := SetLevel(r.tables.users, userId, LevelText(r.newTotal)))
    else r.tables
  }

  /**
   * The whole `adjustXp` call. `cacheUp` says whether the ZADD reaches Redis and
   * `publishUp` whether the broker accepts the event.
   */
  method AdjustXp(db: Database, board: Board, userId: string, delta: int, sourceEventId: string,
                  motivo: Option<string>, cacheUp: bool, publishUp: bool) returns (outcome: Outcome)
    requires board.Valid()
    modifies db, board
    ensures board.Valid()
    ensures db.Snapshot() == AdjustTables(old(db.Snapshot()), userId, delta, sourceEventId, motivo)
    ensures var total := Record(old(db.Snapshot()), userId, delta, sourceEventId, motivo).newTotal;
      && (if total != 0 && cacheUp then board.scores == old(board.scores)[UserKey(userId) := total]
          else board.scores == old(board.scores))
      && (total == 0 ==> outcome == Quiet)
      && (total != 0 ==>
            var evt := XpAdjusted(userId, delta, total, LevelText(total), sourceEventId);
            outcome == if publishUp then Published(evt) else PublishFailed(evt))
  {
    if delta == 0 {
      return Quiet;
    }
    var newTotal := 0;
    if !HasReference(db.ledger, sourceEventId) {
      db.ledger := db.ledger + [LedgerRow(userId, delta, MotivoOr(motivo), sourceEventId)];
      if userId in db.users {
        var row := db.users[userId];
        var total := row.xpTotal.GetOr(0) + delta;
        db.users := db.users[userId := row.(xpTotal := Some(total))];
        newTotal := total;
      }
    }
    if newTotal != 0 {
      var level := LevelText(newTotal);
      if userId in db.users && db.users[userId].nivel.Some? && db.users[userId].nivel.value != level {
        db.users := db.users[userId := db.users[userId].(nivel := Some(level))];
      }
      if cacheUp {
        board.UpdateUserScore(userId, newTotal);
      }
      var evt := XpAdjusted(userId, delta, newTotal, level, sourceEventId);
      if publishUp {
        return Published(evt);
      } else {
        return PublishFailed(evt);
      }
    }
    return Quiet;
  }

  // ---------------------------------------------------------------------------
  // properties
  // ---------------------------------------------------------------------------

  /** A zero delta touches nothing: no row, no total, no level, no cache, no event. */
  lemma ZeroDeltaNoOp(t: Tables, userId: string, key: string, motivo: Option<string>)
    ensures Record(t, userId, 0, key, motivo) == Recorded(t, 0)
    ensures AdjustTables(t, userId, 0, key, motivo) == t
  {
  }

  /** A key already present in the ledger, under any user, makes the call a no-op. */
  lemma UsedKeyNoOp(t: Tables, userId: string, delta: int, key: string, motivo: Option<string>)
    requires HasReference(t.ledger, key)
    ensures Record(t, userId, delta, key, motivo) == Recorded(t, 0)
    ensures AdjustTables(t, userId, delta, key, motivo) == t
  {
  }

  /** After any call the key is in the ledger unless the delta was zero. */
  lemma KeyConsumed(t: Tables, userId: string, delta: int, key: string, motivo: Option<string>)
    requires delta != 0
    ensures HasReference(AdjustTables(t, userId, delta, key, motivo).ledger, key)
  {
    var l := AdjustTables(t, userId, delta, key, motivo).ledger;
    if !HasReference(t.ledger, key) {
      assert l[|l| - 1].referenciaId == key;
    }
  }

  /** Redelivering the same event, even for another user or delta, changes nothing more. */
  lemma SecondCallNoOp(t: Tables, userId: string, delta: int, key: string, motivo: Option<string>,
                       userId2: string, delta2: int, motivo2: Option<string>)
    requires delta != 0
    ensures var t1 := AdjustTables(t, userId, delta, key, motivo);
      AdjustTables(t1, userId2, delta2, key, motivo2) == t1
      && Record(t1, userId2, delta2, key, motivo2).newTotal == 0
  {
    KeyConsumed(t, userId, delta, key, motivo);
  }

  /**
   * A first application appends exactly the row (user, delta, motivo or
   * "event", key) and adds the delta, with no floor, to the user's total
   * (a NULL total counting as 0); no other user's row and no other table change.
   */
  lemma FirstApplication(t: Tables, userId: string, delta: int, key: string, motivo: Option<string>)
    requires delta != 0 && !HasReference(t.ledger, key)
    ensures var r := Record(t, userId, delta, key, motivo);
      && r.tables.ledger == t.ledger + [LedgerRow(userId, delta, MotivoOr(motivo), key)]
      && r.tables.grants == t.grants && r.tables.badges == t.badges && r.tables.events == t.events
      && r.tables.users.Keys == t.users.Keys
      && (forall u :: u in t.users && u != userId ==> r.tables.users[u] == t.users[u])
      && (userId in t.users ==>
            r.newTotal == XpOf(t.users, userId) + delta
            && r.tables.users[userId].xpTotal == Some(r.newTotal)
            && r.tables.users[userId].nivel == t.users[userId].nivel)
      && (userId !in t.users ==> r.newTotal == 0 && r.tables.users == t.users)
  {
  }

  /** The idempotency invariant of the ledger survives every call. */
  lemma KeysStayFresh(t: Tables, userId: string, delta: int, key: string, motivo: Option<string>)
    requires AppliedKeysFresh(t.ledger)
    ensures AppliedKeysFresh(AdjustTables(t, userId, delta, key, motivo).ledger)
  {
    if delta != 0 && !HasReference(t.ledger, key) {
      AppendKeepsKeysFresh(t.ledger, LedgerRow(userId, delta, MotivoOr(motivo), key));
    }
  }

  /**
   * For every user with a row, the difference between `xp_total` and the sum of
   * the user's ledger deltas is unchanged by a call: the ledger accounts for
   * every change of a total.
   */
  lemma TotalsTrackLedger(t: Tables, userId: string, delta: int, key: string, motivo: Option<string>, u: string)
    requires u in t.users
    ensures var t1 := AdjustTables(t, userId, delta, key, motivo);
      u in t1.users && XpOf(t1.users, u) - LedgerSum(t1.ledger, u) == XpOf(t.users, u) - LedgerSum(t.ledger, u)
  {
    var r := Record(t, userId, delta, key, motivo);
    RecordTracksLedger(t, userId, delta, key, motivo, u);
    SetLevelKeepsTotals(r.tables.users, userId, LevelText(r.newTotal), u);
  }

  /** Recording a change moves a total and the ledger sum together. */
  lemma RecordTracksLedger(t: Tables, userId: string, delta: int, key: string, motivo: Option<string>, u: string)
    requires u in t.users
    ensures var r := Record(t, userId, delta, key, motivo).tables;
      u in r.users && XpOf(r.users, u) - LedgerSum(r.ledger, u) == XpOf(t.users, u) - LedgerSum(t.ledger, u)
  {
    if delta != 0 && !HasReference(t.ledger, key) {
      LedgerSumAppend(t.ledger, LedgerRow(userId, delta, MotivoOr(motivo), key), u);
    }
  }

  /** Setting a level touches no total. */
  lemma SetLevelKeepsTotals(users: map<string, UserRow>, userId: string, level: string, u: string)
    requires u in users
    ensures u in SetLevel(users, userId, level) && XpOf(SetLevel(users, userId, level), u) == XpOf(users, u)
  {
  }

  /**
   * When the new total is nonzero and the user's level was set, the stored
   * level afterwards is the label of the new total.
   */
  lemma LevelFollowsTotal(t: Tables, userId: string, delta: int, key: string, motivo: Option<string>)
    requires userId in t.users && t.users[userId].nivel.Some?
    requires Record(t, userId, delta, key, motivo).newTotal != 0
    ensures var t1 := AdjustTables(t, userId, delta, key, motivo);
      t1.users[userId].nivel == Some(LevelText(Record(t, userId, delta, key, motivo).newTotal))
      && t1.users[userId].xpTotal == Some(Record(t, userId, delta, key, motivo).newTotal)
  {
  }

  /**
   * A NULL level is never filled in, and a total that lands on 0 leaves the
   * level as it was, even when it no longer matches the total.
   */
  lemma LevelUntouched(t: Tables, userId: string, delta: int, key: string, motivo: Option<string>)
    requires userId in t.users
    requires t.users[userId].nivel.None? || Record(t, userId, delta, key, motivo).newTotal == 0
    ensures AdjustTables(t, userId, delta, key, motivo).users[userId].nivel == t.users[userId].nivel
  {
  }
}
