/**
 * Manual badge reprocessing (src/services/autoBadgesService.ts): the consumer's
 * fixed badge rules, re-run for one user or for up to 1000 users, with grants
 * audited under the reference id `manual-reprocess`.
 */
module AutoBadges {
  import opened Wrappers
  import opened Text
  import opened Store
  import opened Grants

  const ManualRef: string := "manual-reprocess"

  /** At most this many users are visited by a run over all users. */
  const UserLimit: nat := 1000

  /** `atribuirBadge`: grants with an audit row and says whether the grant is new. */
  method AssignBadge(db: Database, userId: string, code: string) returns (granted: bool)
    modifies db
    ensures granted <==> Grant(userId, code) !in old(db.grants)
    ensures db.Snapshot() == GrantWithAudit(old(db.Snapshot()), userId, code, ManualRef)
  {
    if code !in db.badges {
      db.badges := db.badges[code := Badge(code, Some(code), None, None, None)];
    }
    if Grant(userId, code) in db.grants {
      return false;
    }
    db.grants := db.grants + {Grant(userId, code)};
    db.ledger := db.ledger + [AuditRow(userId, code, ManualRef)];
    return true;
  }

  /** `avaliarBadgesUsuario`: the three fixed rules for one user, in order. */
  method EvaluateUser(db: Database, facts: UserFacts, userId: string, month: int)
    modifies db
    ensures db.Snapshot() == Reprocessed(old(db.Snapshot()), facts, userId, month)
  {
    ghost var t := db.Snapshot();
    ghost var fired: seq<string> := [];
    var total := |facts.completions|;
    if total == 1 {
      GrantAllSnoc(t, userId, fired, PrimeiroCurso, ManualRef);
      var _ := AssignBadge(db, userId, PrimeiroCurso);
      fired := fired + [PrimeiroCurso];
    }
    assert db.Snapshot() == GrantAll(t, userId, fired, ManualRef);
    var cnt := MonthlyCount(facts.completions, month);
    if cnt == 5 {
      GrantAllSnoc(t, userId, fired, Maratonista, ManualRef);
      var _ := AssignBadge(db, userId, Maratonista);
      fired := fired + [Maratonista];
    }
    assert db.Snapshot() == GrantAll(t, userId, fired, ManualRef);
    GrantAllEffect(t, userId, fired, ManualRef);
    assert db.users == t.users;
    var xp := XpOf(db.users, userId);
    if xp >= 3000 {
      GrantAllSnoc(t, userId, fired, Expert, ManualRef);
      var _ := AssignBadge(db, userId, Expert);
      fired := fired + [Expert];
    }
    assert fired == (if total == 1 then [PrimeiroCurso] else []) + (if cnt == 5 then [Maratonista] else []) + (if xp >= 3000 then [Expert] else []);
    assert fired == FiredCodes(t.users, facts, userId, month);
  }

  /** The tables after the fixed rules were applied for one user. */
  function Reprocessed(t: Tables, facts: UserFacts, userId: string, month: int): Tables {
    GrantAll(t, userId, FiredCodes(t.users, facts, userId, month), ManualRef)
  }

  /** The tables after the fixed rules were applied for each listed user in turn. */
  function ReprocessedAll(t: Tables, facts: map<string, UserFacts>, ids: seq<string>, month: int): Tables
    decreases |ids|
  {
    if |ids| == 0 then t
    else
      var last := ids[|ids| - 1];
      Reprocessed(ReprocessedAll(t, facts, ids[..|ids| - 1], month), FactsFor(facts, last), last, month)
  }

  /** Reprocessing one more listed user. */
  lemma ReprocessedAllNext(t: Tables, facts: map<string, UserFacts>, ids: seq<string>, i: nat, month: int)
    requires i < |ids|
    ensures ReprocessedAll(t, facts, ids[..i + 1], month)
            == Reprocessed(ReprocessedAll(t, facts, ids[..i], month), FactsFor(facts, ids[i]), ids[i], month)
  {
    assert ids[..i + 1][..i] == ids[..i];
  }

  /**
   * The users `select id from funcionarios limit 1000` returns. The table's
   * row order is not fixed by the query; the model takes code-point order.
   */
  function VisitedUsers(users: map<string, UserRow>): (ids: seq<string>)
    ensures |ids| == if |users| < UserLimit then |users| else UserLimit
    ensures forall i :: 0 <= i < |ids| ==> ids[i] in users
    ensures forall i, j :: 0 <= i < j < |ids| ==> ids[i] != ids[j]
  {
    var all := Sorted(users.Keys);
    assert forall i, j :: 0 <= i < j < |all| ==> all[i] != all[j] by {
      forall i, j | 0 <= i < j < |all| ensures all[i] != all[j] {
        SortedDistinct(all, users.Keys, i, j);
      }
    }
    if |all| <= UserLimit then all else all[..UserLimit]
  }

  /**
   * `reprocessarBadges`: with a (non-empty) user id, that user alone and
   * `processed: 1`; otherwise every visited user in turn, `processed` counting them.
   */
  method Reprocess(db: Database, userId: Option<string>, facts: map<string, UserFacts>, month: int) returns (processed: nat)
    modifies db
    ensures userId.Some? && userId.value != "" ==>
      processed == 1 && db.Snapshot() == Reprocessed(old(db.Snapshot()), FactsFor(facts, userId.value), userId.value, month)
    ensures userId.None? || userId.value == "" ==>
      processed == |VisitedUsers(old(db.users))|
      && db.Snapshot() == ReprocessedAll(old(db.Snapshot()), facts, VisitedUsers(old(db.users)), month)
  {
    if userId.Some? && userId.value != "" {
      EvaluateUser(db, FactsFor(facts, userId.value), userId.value, month);
      return 1;
    }
    ghost var t := db.Snapshot();
    var ids := VisitedUsers(db.users);
    var count := 0;
    for i := 0 to |ids|
      invariant count == i
      invariant db.Snapshot() == ReprocessedAll(t, facts, ids[..i], month)
    {
      ReprocessedAllNext(t, facts, ids, i, month);
      EvaluateUser(db, FactsFor(facts, ids[i]), ids[i], month);
      count := count + 1;
    }
    assert ids[..|ids|] == ids;
    return count;
  }

  // ---------------------------------------------------------------------------
  // properties
  // ---------------------------------------------------------------------------

  /** A first grant adds exactly one grant and one zero-XP audit row; a repeated one changes nothing but the catalog row. */
  lemma AssignEffect(t: Tables, userId: string, code: string)
    ensures var t1 := GrantWithAudit(t, userId, code, ManualRef);
      && (Grant(userId, code) in t.grants ==> t1 == t.(badges := t1.badges))
      && (Grant(userId, code) !in t.grants ==>
            t1.grants == t.grants + {Grant(userId, code)}
            && t1.ledger == t.ledger + [LedgerRow(userId, 0, "badge:" + code, ManualRef)])
      && t1.badges == (if code in t.badges then t.badges else t.badges[code := Badge(code, Some(code), None, None, None)])
  {
  }

  /** Reprocessing never changes a user row, so the rules read the same XP throughout. */
  lemma {:induction false} ReprocessedAllKeepsUsers(t: Tables, facts: map<string, UserFacts>, ids: seq<string>, month: int)
    ensures var t1 := ReprocessedAll(t, facts, ids, month);
      t1.users == t.users && t.grants <= t1.grants && t.badges.Keys <= t1.badges.Keys
    decreases |ids|
  {
    if |ids| > 0 {
      var init := ids[..|ids| - 1];
      var last := ids[|ids| - 1];
      ReprocessedAllKeepsUsers(t, facts, init, month);
      var t0 := ReprocessedAll(t, facts, init, month);
      GrantAllEffect(t0, last, FiredCodes(t0.users, FactsFor(facts, last), last, month), ManualRef);
    }
  }

  /** A user's codes are settled in `t`: granted and in the catalog. */
  predicate Settled(t: Tables, facts: UserFacts, userId: string, month: int, users: map<string, UserRow>) {
    var codes := FiredCodes(users, facts, userId, month);
    forall i :: 0 <= i < |codes| ==> Grant(userId, codes[i]) in t.grants && codes[i] in t.badges
  }

  /** After a run, every visited user's fired codes are granted. */
  lemma {:induction false} ReprocessedAllSettles(t: Tables, facts: map<string, UserFacts>, ids: seq<string>, month: int, k: nat)
    requires k < |ids|
    ensures Settled(ReprocessedAll(t, facts, ids, month), FactsFor(facts, ids[k]), ids[k], month, t.users)
    decreases |ids|
  {
    var init := ids[..|ids| - 1];
    var last := ids[|ids| - 1];
    var t0 := ReprocessedAll(t, facts, init, month);
    ReprocessedAllKeepsUsers(t, facts, init, month);
    var codes := FiredCodes(t0.users, FactsFor(facts, last), last, month);
    GrantAllEffect(t0, last, codes, ManualRef);
    if k < |ids| - 1 {
      ReprocessedAllSettles(t, facts, init, month, k);
      assert init[k] == ids[k];
    }
  }

  /** Over settled state each step of a rerun changes nothing. */
  lemma {:induction false} RerunPrefixUnchanged(t1: Tables, facts: map<string, UserFacts>, ids: seq<string>, month: int)
    requires forall k :: 0 <= k < |ids| ==> Settled(t1, FactsFor(facts, ids[k]), ids[k], month, t1.users)
    ensures ReprocessedAll(t1, facts, ids, month) == t1
    decreases |ids|
  {
    if |ids| > 0 {
      var init := ids[..|ids| - 1];
      var last := ids[|ids| - 1];
      assert forall k :: 0 <= k < |init| ==> init[k] == ids[k];
      RerunPrefixUnchanged(t1, facts, init, month);
      GrantAllSettled(t1, last, FiredCodes(t1.users, FactsFor(facts, last), last, month), ManualRef);
    }
  }

  /**
   * Reprocessing the same users again with unchanged facts adds no grant, no
   * ledger row and no catalog row.
   */
  lemma ReprocessTwice(t: Tables, facts: map<string, UserFacts>, ids: seq<string>, month: int)
    ensures var t1 := ReprocessedAll(t, facts, ids, month);
      ReprocessedAll(t1, facts, ids, month) == t1
  {
    var t1 := ReprocessedAll(t, facts, ids, month);
    ReprocessedAllKeepsUsers(t, facts, ids, month);
    forall k | 0 <= k < |ids| ensures Settled(t1, FactsFor(facts, ids[k]), ids[k], month, t1.users) {
      ReprocessedAllSettles(t, facts, ids, month, k);
    }
    RerunPrefixUnchanged(t1, facts, ids, month);
  }

  /** Reprocessing one user twice is the same as once. */
  lemma ReprocessUserTwice(t: Tables, facts: UserFacts, userId: string, month: int)
    ensures var t1 := Reprocessed(t, facts, userId, month);
      Reprocessed(t1, facts, userId, month) == t1
  {
    FiredCodesStable(t, facts, userId, month, ManualRef);
    GrantAllIdempotent(t, userId, FiredCodes(t.users, facts, userId, month), ManualRef, ManualRef);
  }
}
